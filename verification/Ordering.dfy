/** Lists of ids in order, and the smallest member of a set of ids: where a walk over an ordered map or an
    ordered query goes next. */
module Ordering {

  ghost predicate Ascending(ids: seq<nat>) { forall i, j :: 0 <= i < j < |ids| ==> ids[i] < ids[j] }

  ghost predicate NoRepeats<T>(s: seq<T>) { forall i, j :: 0 <= i < j < |s| ==> s[i] != s[j] }

  /** From any member one gets down to the smallest. */
  lemma {:induction false} LeastBelow(keys: set<nat>, k: nat)
    requires k in keys
    ensures exists least :: least in keys && forall j :: j in keys ==> least <= j
    decreases k
  {
    if j :| j in keys && j < k {
      LeastBelow(keys, j);
    } else {
      assert forall j :: j in keys ==> k <= j;
    }
  }

  ghost function First(keys: set<nat>): (k: nat)
    requires keys != {}
    ensures k in keys && forall j :: j in keys ==> k <= j
  {
    var some :| some in keys;
    LeastBelow(keys, some);
    var k :| k in keys && forall j :: j in keys ==> k <= j;
    k
  }

  method Least(keys: set<nat>) returns (k: nat)
    requires keys != {}
    ensures k == First(keys)
  {
    ghost var first := First(keys);
    k :| k in keys && forall j :: j in keys ==> k <= j;
  }
}
