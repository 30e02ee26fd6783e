/** The batch gate: one denomination per aggregated transaction. */
module Denomination {
  import opened Wrappers

  /** Either no amount is recorded, or every amount is recorded and they are all the same. */
  ghost predicate OneDenomination(amts: seq<Option<nat>>) {
    forall i, j :: 0 <= i < |amts| && 0 <= j < |amts| ==> amts[i] == amts[j]
  }

  /** `requireSameDenomination`: count what is recorded, then compare with the first. */
  method RequireSameDenomination(amts: seq<Option<nat>>) returns (ok: bool)
    ensures ok <==> OneDenomination(amts)
  {
    var recorded := 0;
    for i := 0 to |amts|
      invariant 0 <= recorded <= i
      invariant recorded == 0 <==> forall k :: 0 <= k < i ==> amts[k] == None
      invariant recorded == i <==> forall k :: 0 <= k < i ==> amts[k] != None
    {
      if amts[i].Some? {
        recorded := recorded + 1;
      }
    }
    if recorded == 0 {
      return true;
    }
    if recorded != |amts| {
      var k :| 0 <= k < |amts| && amts[k] == None;
      var j :| 0 <= j < |amts| && amts[j] != None;
      return false;
    }
    for i := 1 to |amts|
      invariant forall k :: 0 <= k < i ==> amts[k] == amts[0]
    {
      if amts[i].value != amts[0].value {
        return false;
      }
    }
    return true;
  }
}
