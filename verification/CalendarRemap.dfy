/** Renumbering the ids of a table in place, one UPDATE at a time, against renumbering them all at once. */
module CalendarRemap {
  import opened Ordering

  const DELETED_ID := 0xFFFF_FFFF

  /** One planned renumbering. */
  datatype Gee = Gee(from: nat, to: nat)

  /** The ids of a table in the order a query returns them. */
  ghost predicate Lists<V>(ids: seq<nat>, table: map<nat, V>) {
    Ascending(ids) && (forall k :: k in ids <==> k in table)
  }

  // ---------------------------------------------------------------- one statement at a time

  /** UPDATE ... SET id = to WHERE id = from: the primary key moves. */
  function Move<V>(table: map<nat, V>, g: Gee): map<nat, V> {
    if g.from in table then (table - {g.from})[g.to := table[g.from]] else table
  }

  function MoveAll<V>(table: map<nat, V>, remap: seq<Gee>): map<nat, V> {
    if remap == [] then table else Move(MoveAll(table, remap[..|remap| - 1]), remap[|remap| - 1])
  }

  function Redirect(ref: nat, g: Gee): nat { if ref == g.from then g.to else ref }

  function RedirectAll(ref: nat, remap: seq<Gee>): nat {
    if remap == [] then ref else Redirect(RedirectAll(ref, remap[..|remap| - 1]), remap[|remap| - 1])
  }

  /** No statement hits an id that is still in use. */
  ghost predicate CollisionFree<V>(table: map<nat, V>, remap: seq<Gee>) {
    forall i :: 0 <= i < |remap| ==> Free(MoveAll(table, remap[..i]), remap[i])
  }

  ghost predicate Free<V>(table: map<nat, V>, g: Gee) { g.to !in table }

  // ---------------------------------------------------------------- all at once

  /** Places count from 1. */
  function At(ids: seq<nat>, j: nat): nat
    requires 1 <= j <= |ids|
  {
    ids[j - 1]
  }

  /** The entries in their old order, under the ids from 1. */
  ghost function Compact<V>(table: map<nat, V>, ids: seq<nat>): (r: map<nat, V>)
    requires forall k :: k in ids ==> k in table
    ensures forall j :: j in r <==> 1 <= j <= |ids|
    ensures forall j :: j in r ==> r[j] == table[At(ids, j)]
  {
    map j: nat | 1 <= j <= |ids| && At(ids, j) in table :: table[At(ids, j)]
  }

  /** The place of an id in the list, counted from 1; an id that is not there stays. */
  ghost function Rank(ids: seq<nat>, id: nat): nat {
    if ids == [] then id else if ids[|ids| - 1] == id then |ids| else Rank(ids[..|ids| - 1], id)
  }

  /** Each id gets its place in the list, where it does not have it already. */
  function Renumbering(ids: seq<nat>): seq<Gee> {
    if ids == [] then []
    else
      var rest, last := ids[..|ids| - 1], ids[|ids| - 1];
      Renumbering(rest) + if last == |ids| then [] else [Gee(last, |ids|)]
  }

  // ---------------------------------------------------------------- they agree

  lemma {:induction false} PlaceBound(ids: seq<nat>, i: nat)
    requires Ascending(ids) && 0 !in ids && i < |ids|
    ensures ids[i] >= i + 1
  {
    if i == 0 {
      assert ids[0] in ids;
    } else {
      PlaceBound(ids, i - 1);
    }
  }

  ghost predicate Later(ids: seq<nat>, p: nat, k: nat) { exists i :: p <= i < |ids| && ids[i] == k }

  lemma LaterStep(ids: seq<nat>, p: nat, q: nat)
    requires Ascending(ids) && p < |ids| && q == p + 1
    ensures forall k: nat :: Later(ids, p, k) <==> k == ids[p] || Later(ids, q, k)
    ensures forall k: nat :: Later(ids, q, k) ==> k > ids[p]
  {
    assert Later(ids, p, ids[p]);
  }

  /** After the first `p` ids have been handled: places 1 to p are taken, the rest is as it was. */
  ghost predicate Halfway<V>(table: map<nat, V>, ids: seq<nat>, p: nat, now: map<nat, V>)
    requires p <= |ids| && forall k :: k in ids ==> k in table
  {
    && (forall k: nat :: k in now <==> 1 <= k <= p || Later(ids, p, k))
    && (forall k: nat :: 1 <= k <= p ==> now[k] == table[At(ids, k)])
    && (forall k: nat :: Later(ids, p, k) ==> k > p && k in table && now[k] == table[k])
  }

  /** The id at place `q` has been handled: it is gone from where it was and place `q` is taken. */
  ghost predicate Handled<V>(now: map<nat, V>, from: nat, q: nat, next: map<nat, V>)
    requires from in now
  {
    && (forall k :: k in next <==> k == q || (k in now && k != from))
    && q in next && next[q] == now[from]
    && (forall k :: k in next && k != q ==> next[k] == now[k])
  }

  lemma HandledByMove<V>(now: map<nat, V>, from: nat, q: nat)
    requires from in now && (from != q ==> q !in now)
    ensures Handled(now, from, q, if from == q then now else Move(now, Gee(from, q)))
  {
  }

  lemma AtNext<V>(table: map<nat, V>, ids: seq<nat>, p: nat)
    requires p < |ids| && Lists(ids, table)
    ensures Ascending(ids) && At(ids, p + 1) == ids[p] && ids[p] in table
    ensures forall k :: 1 <= k <= p ==> At(ids, k) in table
  {
  }

  lemma HalfwayNext<V>(table: map<nat, V>, ids: seq<nat>, p: nat, now: map<nat, V>, q: nat, next: map<nat, V>)
    requires p < |ids| && Lists(ids, table) && q == p + 1 && ids[p] >= q
    requires Halfway(table, ids, p, now) && ids[p] in now && Handled(now, ids[p], q, next)
    ensures Halfway(table, ids, q, next)
  {
    hide Later, Ascending, Lists, At;
    AtNext(table, ids, p);
    LaterStep(ids, p, q);
    assert Later(ids, p, ids[p]);
    forall k: nat | 1 <= k <= q ensures next[k] == table[At(ids, k)] {
      if k != q {
        assert k in now && now[k] == table[At(ids, k)];
      }
    }
  }

  lemma HalfwayStep<V>(table: map<nat, V>, ids: seq<nat>, p: nat, now: map<nat, V>)
    requires p < |ids| && Lists(ids, table) && 0 !in table
    requires Halfway(table, ids, p, now)
    ensures ids[p] in now && (ids[p] != p + 1 ==> p + 1 !in now)
    ensures Halfway(table, ids, p + 1, if ids[p] == p + 1 then now else Move(now, Gee(ids[p], p + 1)))
  {
    PlaceBound(ids, p);
    LaterStep(ids, p, p + 1);
    assert ids[p] in now && (ids[p] != p + 1 ==> p + 1 !in now);
    hide *;
    HandledByMove(now, ids[p], p + 1);
    HalfwayNext(table, ids, p, now, p + 1, if ids[p] == p + 1 then now else Move(now, Gee(ids[p], p + 1)));
  }

  lemma Start<V>(table: map<nat, V>, ids: seq<nat>)
    requires Lists(ids, table) && 0 !in table
    ensures Halfway(table, ids, 0, table)
  {
    assert forall k :: Later(ids, 0, k) <==> k in ids;
  }

  lemma Finish<V>(table: map<nat, V>, ids: seq<nat>, now: map<nat, V>)
    requires forall k :: k in ids ==> k in table
    requires Halfway(table, ids, |ids|, now)
    ensures now == Compact(table, ids)
  {
  }

  lemma MoveAllMore<V>(table: map<nat, V>, remap: seq<Gee>, g: Gee)
    ensures MoveAll(table, remap + [g]) == Move(MoveAll(table, remap), g)
    ensures CollisionFree(table, remap) && Free(MoveAll(table, remap), g) ==> CollisionFree(table, remap + [g])
  {
    var more := remap + [g];
    assert more[..|more| - 1] == remap;
    assert forall i :: 0 <= i < |remap| ==> more[..i] == remap[..i];
    hide MoveAll, Free;
  }

  lemma MoveAllNone<V>(table: map<nat, V>)
    ensures MoveAll(table, []) == table
  {
  }

  /** The statements one by one: none of them collides, and together they are `MoveAll`. */
  lemma MoveAllNext<V>(table: map<nat, V>, remap: seq<Gee>, i: nat)
    requires CollisionFree(table, remap) && i < |remap|
    ensures Free(MoveAll(table, remap[..i]), remap[i])
    ensures MoveAll(table, remap[..i + 1]) == Move(MoveAll(table, remap[..i]), remap[i])
  {
    hide Free, Move;
    assert remap[..i + 1][..i] == remap[..i];
  }

  lemma RenumberingNext(ids: seq<nat>, id: nat)
    ensures Renumbering(ids + [id]) == Renumbering(ids) + if id == |ids| + 1 then [] else [Gee(id, |ids| + 1)]
  {
    assert (ids + [id])[..|ids + [id]| - 1] == ids;
  }

  lemma {:induction false} MovesTo<V>(table: map<nat, V>, ids: seq<nat>, p: nat)
    requires p <= |ids| && Lists(ids, table) && 0 !in table
    requires forall k :: k in ids ==> k in table
    ensures Halfway(table, ids, p, MoveAll(table, Renumbering(ids[..p])))
    ensures CollisionFree(table, Renumbering(ids[..p]))
  {
    if p == 0 {
      Start(table, ids);
    } else {
      hide *;
      MovesTo(table, ids, p - 1);
      var q, id := p - 1, ids[p - 1];
      assert ids[..p] == ids[..q] + [id];
      var before := Renumbering(ids[..q]);
      HalfwayStep(table, ids, q, MoveAll(table, before));
      RenumberingNext(ids[..q], id);
      if id == p {
        assert Renumbering(ids[..p]) == before;
      } else {
        assert Renumbering(ids[..p]) == before + [Gee(id, p)];
        NowFree(MoveAll(table, before), Gee(id, p));
        MoveAllMore(table, before, Gee(id, p));
      }
    }
  }

  lemma NowFree<V>(table: map<nat, V>, g: Gee)
    requires g.to !in table
    ensures Free(table, g)
  {
  }

  /** Renumbering one by one in ascending order never hits an id in use and gives the entries the ids from 1
      in their old order. */
  lemma SequentialIsCompact<V>(table: map<nat, V>, ids: seq<nat>)
    requires Lists(ids, table) && 0 !in table
    ensures CollisionFree(table, Renumbering(ids))
    ensures MoveAll(table, Renumbering(ids)) == Compact(table, ids)
  {
    MovesTo(table, ids, |ids|);
    assert ids[..|ids|] == ids;
    Finish(table, ids, MoveAll(table, Renumbering(ids)));
  }

  lemma RedirectMore(ref: nat, remap: seq<Gee>, g: Gee)
    ensures RedirectAll(ref, remap + [g]) == Redirect(RedirectAll(ref, remap), g)
  {
    assert (remap + [g])[..|remap + [g]| - 1] == remap;
  }

  lemma RankStep(ids: seq<nat>, ref: nat)
    requires ids != [] && Ascending(ids)
    ensures var rest := ids[..|ids| - 1];
            && Ascending(rest) && ids[|ids| - 1] !in rest
            && (forall k :: k in ids <==> k in rest || k == ids[|ids| - 1])
  {
    var rest := ids[..|ids| - 1];
    assert ids == rest + [ids[|ids| - 1]];
  }

  lemma {:induction false} RankPlace(ids: seq<nat>, ref: nat)
    requires Ascending(ids)
    ensures ref in ids ==> 1 <= Rank(ids, ref) <= |ids| && At(ids, Rank(ids, ref)) == ref
    ensures ref !in ids ==> Rank(ids, ref) == ref
  {
    if ids != [] {
      RankStep(ids, ref);
      RankPlace(ids[..|ids| - 1], ref);
    }
  }

  /** A reference follows its target through all statements; one that had no target stays as it is. */
  lemma {:induction false} RedirectIsRank(ids: seq<nat>, ref: nat)
    requires Ascending(ids) && 0 !in ids
    ensures RedirectAll(ref, Renumbering(ids)) == Rank(ids, ref)
  {
    if ids != [] {
      var rest, n, last := ids[..|ids| - 1], |ids|, ids[|ids| - 1];
      RankStep(ids, ref);
      RankPlace(rest, ref);
      RedirectIsRank(rest, ref);
      PlaceBound(ids, n - 1);
      assert ref in rest ==> Rank(rest, ref) < last;
      RedirectMore(ref, Renumbering(rest), Gee(last, n));
      assert Renumbering(ids) == if last == n then Renumbering(rest) else Renumbering(rest) + [Gee(last, n)];
    }
  }
}
