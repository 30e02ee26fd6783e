/**
 * Sums of formal combinations over sequences and over sets. The source folds over Go maps, whose
 * iteration order is arbitrary, so what it computes is a sum over a set: `SumSet` picks elements
 * in an unknown order and the lemmas show that the order does not matter.
 */
module Sums {
  import opened Curve

  function SumSeq<T>(s: seq<T>, f: T -> Vec): Vec {
    if s == [] then Zero else f(s[0]).Plus(SumSeq(s[1..], f))
  }

  ghost function SumSet<T>(s: set<T>, f: T -> Vec): Vec {
    if s == {} then Zero
    else
      var x :| x in s;
      f(x).Plus(SumSet(s - {x}, f))
  }

  /** `order` visits every element of `s` exactly once: one possible iteration of a Go map. */
  ghost predicate Visits<T>(order: seq<T>, s: set<T>) {
    multiset(order) == multiset(s)
  }

  lemma VisitsElements<T>(order: seq<T>, s: set<T>)
    requires Visits(order, s)
    ensures forall x :: x in order <==> x in s
    ensures forall i, j :: 0 <= i < j < |order| ==> order[i] != order[j]
    ensures |order| == |s|
  {
    assert |order| == |multiset(order)| == |multiset(s)| == |s|;
    forall x ensures x in order <==> x in s {
      assert x in order <==> x in multiset(order);
      assert x in s <==> x in multiset(s);
    }
    forall i, j | 0 <= i < j < |order| ensures order[i] != order[j] {
      assert order == order[..i] + [order[i]] + order[i + 1..j] + [order[j]] + order[j + 1..];
      assert multiset(s)[order[i]] == 1;
    }
  }

  lemma VisitsMore<T>(order: seq<T>, s: set<T>, x: T)
    requires Visits(order, s) && x !in s
    ensures Visits(order + [x], s + {x})
  {
    assert multiset(s + {x}) == multiset(s) + multiset{x};
  }

  lemma PlusSwap(x: Vec, y: Vec, z: Vec)
    ensures x.Plus(y.Plus(z)) == y.Plus(x.Plus(z))
  {
  }

  lemma {:induction false} SumSetRemove<T>(s: set<T>, x: T, f: T -> Vec)
    requires x in s
    ensures SumSet(s, f) == f(x).Plus(SumSet(s - {x}, f))
  {
    var y :| y in s && SumSet(s, f) == f(y).Plus(SumSet(s - {y}, f));
    if y != x {
      SumSetRemove(s - {y}, x, f);
      SumSetRemove(s - {x}, y, f);
      assert s - {y} - {x} == s - {x} - {y};
      PlusSwap(f(x), f(y), SumSet(s - {x} - {y}, f));
    }
  }

  lemma SumSetInsert<T>(s: set<T>, x: T, f: T -> Vec)
    requires x !in s
    ensures SumSet(s + {x}, f) == f(x).Plus(SumSet(s, f))
  {
    SumSetRemove(s + {x}, x, f);
    assert s + {x} - {x} == s;
  }

  lemma {:induction false} SumSeqAppend<T>(s: seq<T>, t: seq<T>, f: T -> Vec)
    ensures SumSeq(s + t, f) == SumSeq(s, f).Plus(SumSeq(t, f))
  {
    if s == [] {
      assert s + t == t;
    } else {
      assert (s + t)[1..] == s[1..] + t;
      SumSeqAppend(s[1..], t, f);
    }
  }

  lemma SumSeqSnoc<T>(s: seq<T>, x: T, f: T -> Vec)
    ensures SumSeq(s + [x], f) == SumSeq(s, f).Plus(f(x))
  {
    SumSeqAppend(s, [x], f);
  }

  /** Sorting does not change a sum. */
  lemma {:induction false} SumSeqPermute<T>(s: seq<T>, t: seq<T>, f: T -> Vec)
    requires multiset(s) == multiset(t)
    ensures SumSeq(s, f) == SumSeq(t, f)
  {
    if s == [] {
      assert |t| == |multiset(t)| == 0;
    } else {
      assert s[0] in multiset(t);
      var i :| 0 <= i < |t| && t[i] == s[0];
      PermuteTail(s, t, i);
      SumSeqPermute(s[1..], t[..i] + t[i + 1..], f);
      SumSeqPull(t, i, f);
    }
  }

  /** Appending an element and sorting. */
  lemma SumSeqGrow<T>(s: seq<T>, x: T, t: seq<T>, f: T -> Vec)
    requires multiset(t) == multiset(s + [x])
    ensures SumSeq(t, f) == SumSeq(s, f).Plus(f(x))
    ensures |t| == |s| + 1
  {
    SumSeqPermute(t, s + [x], f);
    SumSeqSnoc(s, x, f);
    assert |t| == |multiset(t)| == |multiset(s + [x])| == |s + [x]|;
  }

  lemma PermuteTail<T>(s: seq<T>, t: seq<T>, i: nat)
    requires multiset(s) == multiset(t) && s != [] && i < |t| && t[i] == s[0]
    ensures multiset(s[1..]) == multiset(t[..i] + t[i + 1..])
  {
    assert s == [s[0]] + s[1..];
    assert t == t[..i] + [t[i]] + t[i + 1..];
    assert multiset(s) == multiset{s[0]} + multiset(s[1..]);
    assert multiset(t) == multiset{t[i]} + multiset(t[..i] + t[i + 1..]);
    assert multiset(s[1..]) == multiset(s) - multiset{s[0]};
    assert multiset(t[..i] + t[i + 1..]) == multiset(t) - multiset{t[i]};
  }

  lemma SumSeqPull<T>(t: seq<T>, i: nat, f: T -> Vec)
    requires i < |t|
    ensures SumSeq(t, f) == f(t[i]).Plus(SumSeq(t[..i] + t[i + 1..], f))
  {
    assert t == t[..i] + ([t[i]] + t[i + 1..]);
    SumSeqAppend(t[..i], [t[i]] + t[i + 1..], f);
    SumSeqAppend(t[..i], t[i + 1..], f);
    assert ([t[i]] + t[i + 1..])[1..] == t[i + 1..];
    PlusSwap(SumSeq(t[..i], f), f(t[i]), SumSeq(t[i + 1..], f));
  }

  /** Every iteration order of a set computes the same sum. */
  lemma {:induction false} SumVisit<T>(order: seq<T>, s: set<T>, f: T -> Vec)
    requires Visits(order, s)
    ensures SumSeq(order, f) == SumSet(s, f)
  {
    if order == [] {
      assert |multiset(s)| == |s|;
    } else {
      var x := order[0];
      assert order == [x] + order[1..];
      assert x in multiset(order);
      assert multiset(order[1..]) == multiset(order) - multiset{x};
      assert multiset(s - {x}) == multiset(s) - multiset{x};
      SumVisit(order[1..], s - {x}, f);
      SumSetRemove(s, x, f);
    }
  }

  lemma {:induction false} SumSetEqual<T>(s: set<T>, f: T -> Vec, g: T -> Vec)
    requires forall x :: x in s ==> f(x) == g(x)
    ensures SumSet(s, f) == SumSet(s, g)
  {
    if s != {} {
      var x :| x in s;
      SumSetRemove(s, x, f);
      SumSetRemove(s, x, g);
      SumSetEqual(s - {x}, f, g);
    }
  }

  lemma PlusMix(x: Vec, y: Vec, z: Vec, w: Vec)
    ensures x.Plus(y).Plus(z.Plus(w)) == x.Plus(z).Plus(y.Plus(w))
  {
  }

  lemma {:induction false} SumSetPlus<T>(s: set<T>, f: T -> Vec, g: T -> Vec, h: T -> Vec)
    requires forall x :: x in s ==> h(x) == f(x).Plus(g(x))
    ensures SumSet(s, h) == SumSet(s, f).Plus(SumSet(s, g))
  {
    if s != {} {
      var x :| x in s;
      SumSetRemove(s, x, f);
      SumSetRemove(s, x, g);
      SumSetRemove(s, x, h);
      SumSetPlus(s - {x}, f, g, h);
      PlusMix(f(x), g(x), SumSet(s - {x}, f), SumSet(s - {x}, g));
    }
  }

  /** Term by term equal points add up to equal points. */
  lemma {:induction false} SumSetSame<T>(s: set<T>, f: T -> Vec, g: T -> Vec)
    requires forall x :: x in s ==> Same(f(x), g(x))
    ensures Same(SumSet(s, f), SumSet(s, g))
  {
    if s != {} {
      var x :| x in s;
      SumSetRemove(s, x, f);
      SumSetRemove(s, x, g);
      SumSetSame(s - {x}, f, g);
      SamePlus(f(x), g(x), SumSet(s - {x}, f), SumSet(s - {x}, g));
    }
  }

  /** The image of a set under the map that sends the key `x` to `next[x]`. */
  ghost function Image<T, U>(next: map<T, U>): set<U> {
    set x | x in next :: next[x]
  }

  ghost predicate Injective<T(!new), U>(next: map<T, U>) {
    forall x, y :: x in next && y in next && next[x] == next[y] ==> x == y
  }

  /** Summing over the image of a one-to-one map is summing the composition over its keys. */
  lemma {:induction false} SumImage<T(!new), U>(next: map<T, U>, f: T -> Vec, g: U -> Vec)
    requires Injective(next)
    requires forall x :: x in next ==> f(x) == g(next[x])
    ensures SumSet(next.Keys, f) == SumSet(Image(next), g)
    ensures |next| == |Image(next)|
  {
    if next.Keys == {} {
      assert Image(next) == {};
    } else {
      var x :| x in next.Keys;
      var rest := next - {x};
      SumImage(rest, f, g);
      assert rest.Keys == next.Keys - {x};
      assert next[x] in Image(next);
      assert Image(rest) == Image(next) - {next[x]};
      SumSetRemove(next.Keys, x, f);
      SumSetRemove(Image(next), next[x], g);
    }
  }
}
