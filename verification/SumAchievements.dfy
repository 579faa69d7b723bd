/** Achievements of the SUMM kind pass by a running 32-bit sum of counters.  Whether their record follows their
    test is decided by the criteria list alone: by how far the counters can add up before they pass. */
module SumAchievements {
  import opened Machine
  import opened Achievements

  // ---------------------------------------------------------------- the condition

  function Larger(x: int, y: int): int { if x < y then y else x }

  /** The most that the counters of the list can add up to while the achievement does not pass. */
  function Headroom(w: World, cs: seq<Criteria>): int {
    if cs == [] then 0
    else
      var h, c := Headroom(w, cs[..|cs| - 1]), cs[|cs| - 1];
      Larger(h, Min(h + Cap(w, c), c.rawCount - 1))
  }

  /** A criterion that can push the sum over the 32-bit limit from there. */
  ghost predicate CanRunOver(w: World, cs: seq<Criteria>) {
    exists k :: 0 <= k < |cs| && cs[k].rawCount > 0 && Headroom(w, cs[..k]) + Cap(w, cs[k]) >= UINT32_LIMIT
  }

  // ---------------------------------------------------------------- where it fails, no sum runs over unnoticed

  lemma ReachedNext(p: ProgressMap, cs: seq<Criteria>, n: nat)
    requires n < |cs|
    ensures CounterSum(p, cs[..n + 1]) == CounterSum(p, cs[..n]) + Counter(p, cs[n].id)
    ensures SumReached(p, cs[..n + 1]) <==>
              SumReached(p, cs[..n]) || (cs[n].id in p && Wrap(CounterSum(p, cs[..n + 1])) >= cs[n].rawCount)
  {
    SumNext(p, cs, n);
    var more, less := cs[..n + 1], cs[..n];
    hide CounterSum, Wrap;
    assert forall k :: 0 <= k < n ==> more[k] == less[k] && more[..k + 1] == less[..k + 1];
    assert more[..n + 1] == more;
    if SumReached(p, less) {
      var k :| 0 <= k < |less| && less[k].id in p && Wrap(CounterSum(p, less[..k + 1])) >= less[k].rawCount;
      assert more[k].id in p && Wrap(CounterSum(p, more[..k + 1])) >= more[k].rawCount;
    }
    if cs[n].id in p && Wrap(CounterSum(p, cs[..n + 1])) >= cs[n].rawCount {
      assert more[n].id in p && Wrap(CounterSum(p, more[..n + 1])) >= more[n].rawCount;
    }
  }

  lemma HeadroomNext(w: World, cs: seq<Criteria>, n: nat)
    requires n < |cs|
    ensures Headroom(w, cs[..n + 1]) ==
              Larger(Headroom(w, cs[..n]), Min(Headroom(w, cs[..n]) + Cap(w, cs[n]), cs[n].rawCount - 1))
  {
    assert cs[..n + 1][..n] == cs[..n];
  }

  lemma {:induction false} HeadroomFits(w: World, cs: seq<Criteria>)
    ensures 0 <= Headroom(w, cs) < UINT32_LIMIT - 1
  {
    if cs != [] {
      HeadroomFits(w, cs[..|cs| - 1]);
    }
  }

  /** Counters that do not pass stay within the headroom, as long as the list cannot run over. */
  lemma {:induction false} UnreachedFits(w: World, s: State, cs: seq<Criteria>, n: nat)
    requires Capped(w, s) && n <= |cs| && !CanRunOver(w, cs)
    requires forall c :: c in cs ==> w.Knows(c)
    ensures !SumReached(s.progress, cs[..n]) ==> CounterSum(s.progress, cs[..n]) <= Headroom(w, cs[..n])
  {
    if n == 0 {
      assert cs[..0] == [];
    } else {
      hide *;
      assert cs[n - 1] in cs;
      UnreachedFits(w, s, cs, n - 1);
      StaysInRange(w, cs, n - 1);
      UnreachedNext(w, s, cs, n - 1);
    }
  }

  lemma UnreachedNext(w: World, s: State, cs: seq<Criteria>, n: nat)
    requires n < |cs| && Capped(w, s) && w.Knows(cs[n])
    requires cs[n].rawCount > 0 ==> Headroom(w, cs[..n]) + Cap(w, cs[n]) < UINT32_LIMIT
    requires !SumReached(s.progress, cs[..n]) ==> CounterSum(s.progress, cs[..n]) <= Headroom(w, cs[..n])
    ensures !SumReached(s.progress, cs[..n + 1]) ==> CounterSum(s.progress, cs[..n + 1]) <= Headroom(w, cs[..n + 1])
  {
    hide CounterSum, Headroom, SumReached, Capped, Cap, World.Knows, Counter, Wrap;
    ReachedNext(s.progress, cs, n);
    HeadroomNext(w, cs, n);
    CounterFits(w, s, cs[n]);
    WrapSmall(CounterSum(s.progress, cs[..n + 1]));
  }

  lemma WrapSmall(x: nat)
    ensures x < UINT32_LIMIT ==> Wrap(x) == x
  {
  }

  lemma CounterFits(w: World, s: State, c: Criteria)
    requires Capped(w, s) && w.Knows(c)
    ensures Counter(s.progress, c.id) <= Cap(w, c) && (c.id !in s.progress ==> Counter(s.progress, c.id) == 0)
  {
  }

  lemma StaysInRange(w: World, cs: seq<Criteria>, n: nat)
    requires n < |cs| && !CanRunOver(w, cs)
    ensures cs[n].rawCount > 0 ==> Headroom(w, cs[..n]) + Cap(w, cs[n]) < UINT32_LIMIT
  {
    hide Headroom, Cap;
  }

  /** So a sum that has run over is one that passes by an earlier criterion. */
  lemma WrappedStillPasses(w: World, s: State, a: Achievement)
    requires w.WellFormed() && Capped(w, s) && !a.counter && !CanRunOver(w, w.CriteriaList(a.TestId()))
    ensures Wraps(w, s.progress, a) ==> Done(w, {}, s.progress, a)
  {
    var cs := w.CriteriaList(a.TestId());
    UnreachedFits(w, s, cs, |cs|);
    HeadroomFits(w, cs);
    assert cs[..|cs|] == cs;
    hide SumReached, Headroom, CanRunOver, Capped;
  }

  // ---------------------------------------------------------------- runs

  /** A run of calls, all of which keep the counters within their maxima. */
  ghost predicate IsCappedRun(w: World, es: seq<Env>, run: seq<State>) {
    IsRun(w, es, run) && forall s :: s in run ==> Capped(w, s)
  }

  /** As long as every sum that has run over still passes, the record follows the test. */
  lemma {:induction false} SumFollowsUnlessWrapped(w: World, es: seq<Env>, run: seq<State>, a: Achievement)
    requires w.WellFormed() && IsRun(w, es, run) && Plain(w, a)
    requires forall s :: s in run && Wraps(w, s.progress, a) ==> Done(w, {}, s.progress, a)
    ensures Follows(w, run[|es|], a)
  {
    var n := |es|;
    if n == 0 {
      NothingPasses(w, a);
    } else {
      ShorterRun(w, es, run);
      RunLength(w, es, run);
      hide *;
      assert run[n - 1] in run && run[n] in run;
      assert forall s :: s in run[..n] ==> s in run;
      SumFollowsUnlessWrapped(w, es[..n - 1], run[..n], a);
      StepKeepsRecord(w, es[n - 1], run[n - 1], run[n], a);
    }
  }

  lemma StepKeepsRecord(w: World, e: Env, s: State, s': State, a: Achievement)
    requires w.WellFormed() && Step(w, e, s, s') && Plain(w, a) && Follows(w, s, a)
    requires Wraps(w, s.progress, a) ==> Done(w, {}, s.progress, a)
    requires Wraps(w, s'.progress, a) ==> Done(w, {}, s'.progress, a)
    ensures Follows(w, s', a)
  {
    hide Improves, Lowers, TimedOnly, Wraps, Done, Follows, Plain, World.WellFormed;
    if Improves(w, e, s, s') {
      GainKeepsRecord(w, e, s, s', a);
    } else if c, v :| Lowers(w, e, s, s', c, v) {
      LoweringKeepsRecord(w, e, s, s', c, v, a);
    } else {
      TimersKeepRecord(w, s, s', a);
    }
  }

  // ---------------------------------------------------------------- where it holds, a run makes the sum run over

  /** Nobody is eligible for meta criteria, so only the counters and the records move. */
  const PLAYER: Env := Env(true, {}, {}, 0)

  /** Each of these achievements that passes its test is recorded. */
  lemma {:induction false} RecordAll(w: World, s: State, ds: seq<Achievement>) returns (s': State)
    requires forall d :: d in ds ==> w.Has(d)
    ensures Improves(w, PLAYER, s, s') && s'.progress == s.progress
    ensures forall d :: d in ds ==> !Missed(w, PLAYER, s', d)
  {
    s' := s;
    if ds == [] {
      ImprovesReflexive(w, PLAYER, s);
    } else {
      var front, d := ds[..|ds| - 1], ds[|ds| - 1];
      var s1 := RecordAll(w, s, front);
      s' := RecordOne(w, s1, d);
      hide Missed, World.Has;
      ImprovesTransitive(w, PLAYER, s, s1, s');
      GrowthMisses(w, s1, s');
      hide Improves;
      assert forall b :: b in ds ==> b in front || b == d;
    }
  }

  lemma GrowthMisses(w: World, s: State, s': State)
    requires Improves(w, PLAYER, s, s')
    ensures forall b :: Missed(w, PLAYER, s', b) ==> Missed(w, PLAYER, s, b)
  {
  }

  lemma RecordOne(w: World, s: State, d: Achievement) returns (s': State)
    requires w.Has(d)
    ensures Improves(w, PLAYER, s, s') && s'.progress == s.progress && !Missed(w, PLAYER, s', d)
  {
    s' := s;
    if Missed(w, PLAYER, s, d) {
      s' := s.(completed := s.completed[d.id := CompletedAchievementData(PLAYER.now, true)],
               points := Wrap(s.points + d.points));
      ImprovesReflexive(w, PLAYER, s');
      assert Enters(w, PLAYER, s, s', d);
      hide Enters, Improves, Done;
      EntrySettled(w, PLAYER, s, s', s', d);
    } else {
      ImprovesReflexive(w, PLAYER, s);
    }
  }

  /** One call that raises a counter and records whatever passes by it. */
  lemma RaiseCall(w: World, s: State, c: Criteria, v: uint32) returns (s': State)
    requires w.WellFormed() && w.Knows(c) && c.requiredType.OtherType? && Counter(s.progress, c.id) < v
    ensures Step(w, PLAYER, s, s') && s.completed.Keys <= s'.completed.Keys
    ensures s'.progress == Recorded(PLAYER, s, c, v).progress
    ensures forall b :: w.Has(b) && b.TestId() == c.referredAchievement ==> !Missed(w, PLAYER, s', b)
  {
    var a := w.achievements[c.referredAchievement];
    var ds := [a] + w.ReferenceList(a.id);
    assert forall d :: d in w.ReferenceList(a.id) ==> w.Has(d);
    var s1 := Recorded(PLAYER, s, c, v);
    s' := RecordAll(w, s1, ds);
    assert forall d :: d in w.ReferenceList(a.id) ==> d in ds;
    assert a in ds;
    hide Missed, Improves;
    RaiseSettled(w, PLAYER, s, s1, s', c, a, v);
    forall b | w.Has(b) && b.TestId() == c.referredAchievement ensures !Missed(w, PLAYER, s', b) {
      assert b.refAchievement != 0 ==> b in w.ReferenceList(a.id);
      assert b in ds;
    }
    GainGrows(w, s, s');
  }

  lemma GainGrows(w: World, s: State, s': State)
    requires Improves(w, PLAYER, s, s')
    ensures s.completed.Keys <= s'.completed.Keys
  {
  }

  /** The run goes on by such a call. */
  lemma RaiseRun(w: World, es: seq<Env>, run: seq<State>, c: Criteria, v: uint32)
      returns (es': seq<Env>, run': seq<State>)
    requires w.WellFormed() && IsCappedRun(w, es, run) && w.Knows(c) && c.requiredType.OtherType?
    requires Counter(run[|es|].progress, c.id) < v <= Cap(w, c)
    ensures IsCappedRun(w, es', run')
    ensures var s, s' := run[|es|], run'[|es'|];
            && s.completed.Keys <= s'.completed.Keys
            && Counter(s'.progress, c.id) == v && s'.progress.Keys == s.progress.Keys + {c.id}
            && (forall i :: i != c.id ==> Counter(s'.progress, i) == Counter(s.progress, i))
            && (forall b :: w.Has(b) && b.TestId() == c.referredAchievement ==> !Missed(w, PLAYER, s', b))
  {
    var s := run[|es|];
    var s' := RaiseCall(w, s, c, v);
    es', run' := es + [PLAYER], run + [s'];
    assert Capped(w, s') by {
      hide Step, Missed;
      assert s in run && Capped(w, s);
    }
    hide Step, Missed, Capped, World.WellFormed, Cap;
    RunLength(w, es, run);
    LongerRun(w, es, run, PLAYER, s');
    hide IsRun;
    assert forall t :: t in run' ==> t in run || t == s';
  }

  /** Ordinary criteria, each of them once. */
  ghost predicate Ordinary(cs: seq<Criteria>) {
    && (forall c :: c in cs ==> c.requiredType.OtherType?)
    && (forall j, k :: 0 <= j < k < |cs| ==> cs[j].id != cs[k].id)
  }

  /** The first criteria have used up the headroom, and the others have no progress. */
  ghost predicate Filled(w: World, p: ProgressMap, cs: seq<Criteria>, n: nat)
    requires n <= |cs|
  {
    && CounterSum(p, cs[..n]) == Headroom(w, cs[..n]) && !SumReached(p, cs[..n])
    && forall j :: n <= j < |cs| ==> cs[j].id !in p
  }

  /** One more criterion with progress does not touch the sum of those before it. */
  lemma PrefixSame(p: ProgressMap, p': ProgressMap, cs: seq<Criteria>, n: nat)
    requires n < |cs| && Ordinary(cs) && p'.Keys == p.Keys + {cs[n].id}
    requires forall i :: i != cs[n].id ==> Counter(p', i) == Counter(p, i)
    ensures CounterSum(p', cs[..n]) == CounterSum(p, cs[..n])
    ensures SumReached(p', cs[..n]) <==> SumReached(p, cs[..n])
  {
    var front := cs[..n];
    assert forall k :: 0 <= k < n ==> front[k].id != cs[n].id && (front[k].id in p' <==> front[k].id in p);
    hide Ordinary, CounterSum;
    forall k | 0 <= k <= n ensures CounterSum(p', front[..k]) == CounterSum(p, front[..k]) {
      CounterSumSame(p', p, front[..k]);
    }
    assert front[..n] == front;
    hide Wrap;
    assert forall k :: 0 <= k < n ==>
                         (front[k].id in p' && Wrap(CounterSum(p', front[..k + 1])) >= front[k].rawCount <==>
                          front[k].id in p && Wrap(CounterSum(p, front[..k + 1])) >= front[k].rawCount);
  }

  lemma FilledNone(w: World, cs: seq<Criteria>)
    ensures Filled(w, map[], cs, 0)
  {
  }

  /** Nothing to add: the headroom has not grown. */
  lemma FilledAsIs(w: World, p: ProgressMap, cs: seq<Criteria>, n: nat)
    requires n < |cs| && Filled(w, p, cs, n) && Headroom(w, cs[..n + 1]) == Headroom(w, cs[..n])
    ensures Filled(w, p, cs, n + 1)
  {
    ReachedNext(p, cs, n);
    hide CounterSum, SumReached, Headroom;
  }

  lemma FilledMore(w: World, p: ProgressMap, p': ProgressMap, cs: seq<Criteria>, n: nat)
    requires n < |cs| && Ordinary(cs) && Filled(w, p, cs, n) && p'.Keys == p.Keys + {cs[n].id}
    requires forall i :: i != cs[n].id ==> Counter(p', i) == Counter(p, i)
    requires Counter(p', cs[n].id) == Headroom(w, cs[..n + 1]) - Headroom(w, cs[..n]) > 0
    ensures Filled(w, p', cs, n + 1)
  {
    hide CounterSum, SumReached, Headroom, Cap, Counter, Wrap;
    PrefixSame(p, p', cs, n);
    ReachedNext(p', cs, n);
    HeadroomNext(w, cs, n);
    HeadroomFits(w, cs[..n + 1]);
    OthersAbsent(p, p', cs, n);
    WrapSmall(CounterSum(p', cs[..n + 1]));
    hide Ordinary;
  }

  lemma OthersAbsent(p: ProgressMap, p': ProgressMap, cs: seq<Criteria>, n: nat)
    requires n < |cs| && Ordinary(cs) && p'.Keys == p.Keys + {cs[n].id}
    requires forall j :: n <= j < |cs| ==> cs[j].id !in p
    ensures forall j :: n < j < |cs| ==> cs[j].id !in p'
  {
  }

  /** The criteria list of a SUMM achievement that is tested on its own criteria or on those of no pure counter. */
  ghost predicate Summed(w: World, a: Achievement) {
    w.WellFormed() && Plain(w, a) && a.summ && Ordinary(w.CriteriaList(a.TestId()))
  }

  lemma SummedKnows(w: World, a: Achievement, n: nat)
    requires Summed(w, a) && n < |w.CriteriaList(a.TestId())|
    ensures var c := w.CriteriaList(a.TestId())[n];
            w.Knows(c) && c.requiredType.OtherType? && c.referredAchievement == a.TestId() && w.WellFormed()
  {
    assert w.CriteriaList(a.TestId())[n] in w.CriteriaList(a.TestId());
  }

  /** Calls that use up the headroom of the first criteria. */
  lemma {:induction false} FillHeadroom(w: World, a: Achievement, n: nat) returns (es: seq<Env>, run: seq<State>)
    requires Summed(w, a) && n <= |w.CriteriaList(a.TestId())|
    ensures IsCappedRun(w, es, run) && Filled(w, run[|es|].progress, w.CriteriaList(a.TestId()), n)
  {
    var cs := w.CriteriaList(a.TestId());
    if n == 0 {
      es, run := [], [NOTHING];
      FilledNone(w, cs);
    } else {
      es, run := FillHeadroom(w, a, n - 1);
      es, run := FillOne(w, a, n - 1, es, run);
    }
  }

  lemma FillOne(w: World, a: Achievement, n: nat, es: seq<Env>, run: seq<State>)
      returns (es': seq<Env>, run': seq<State>)
    requires Summed(w, a) && n < |w.CriteriaList(a.TestId())|
    requires IsCappedRun(w, es, run) && Filled(w, run[|es|].progress, w.CriteriaList(a.TestId()), n)
    ensures IsCappedRun(w, es', run') && Filled(w, run'[|es'|].progress, w.CriteriaList(a.TestId()), n + 1)
  {
    var cs := w.CriteriaList(a.TestId());
    var p, room := run[|es|].progress, Headroom(w, cs[..n + 1]) - Headroom(w, cs[..n]);
    SummedKnows(w, a, n);
    HeadroomNext(w, cs, n);
    HeadroomFits(w, cs[..n + 1]);
    HeadroomFits(w, cs[..n]);
    assert Counter(p, cs[n].id) == 0;
    es', run' := es, run;
    hide Headroom, Cap, IsCappedRun, Filled;
    if room > 0 {
      es', run' := RaiseRun(w, es, run, cs[n], room);
      FilledMore(w, p, run'[|es'|].progress, cs, n);
    } else {
      FilledAsIs(w, p, cs, n);
    }
  }

  /** With the headroom used up, the next criterion alone decides. */
  lemma LastDecides(w: World, p: ProgressMap, p': ProgressMap, a: Achievement, n: nat, v: uint32)
    requires Summed(w, a) && n < |w.CriteriaList(a.TestId())|
    requires LastOnly(w, p, p', w.CriteriaList(a.TestId()), n, v)
    ensures var cs := w.CriteriaList(a.TestId());
            Done(w, {}, p', a) <==> Wrap(Headroom(w, cs[..n]) + v) >= cs[n].rawCount
  {
    LastReached(w, p, p', w.CriteriaList(a.TestId()), n, v);
    hide LastOnly, SumReached, Headroom, Wrap, World.WellFormed;
  }

  ghost predicate LastOnly(w: World, p: ProgressMap, p': ProgressMap, cs: seq<Criteria>, n: nat, v: uint32)
    requires n < |cs|
  {
    && Filled(w, p, cs, n) && p'.Keys == p.Keys + {cs[n].id} && Counter(p', cs[n].id) == v
    && forall i :: i != cs[n].id ==> Counter(p', i) == Counter(p, i)
  }

  lemma LastReached(w: World, p: ProgressMap, p': ProgressMap, cs: seq<Criteria>, n: nat, v: uint32)
    requires n < |cs| && Ordinary(cs) && LastOnly(w, p, p', cs, n, v)
    ensures SumReached(p', cs) <==> Wrap(Headroom(w, cs[..n]) + v) >= cs[n].rawCount
  {
    hide Headroom, CounterSum, Wrap, SumReached;
    PrefixSame(p, p', cs, n);
    ReachedNext(p', cs, n);
    NoneReachedAfter(p', cs, n + 1);
    assert cs[..|cs|] == cs;
  }

  lemma {:induction false} NoneReachedAfter(p: ProgressMap, cs: seq<Criteria>, n: nat)
    requires n <= |cs| && forall j :: n <= j < |cs| ==> cs[j].id !in p
    ensures SumReached(p, cs[..|cs|]) <==> SumReached(p, cs[..n])
    decreases |cs| - n
  {
    if n < |cs| {
      ReachedNext(p, cs, n);
      NoneReachedAfter(p, cs, n + 1);
    }
  }

  /** Two more calls: the first makes the achievement pass just below the limit, the second takes the sum over it. */
  lemma RunOver(w: World, a: Achievement, k: nat) returns (es: seq<Env>, run: seq<State>)
    requires Summed(w, a) && k < |w.CriteriaList(a.TestId())|
    requires var cs := w.CriteriaList(a.TestId());
             cs[k].rawCount > 0 && Headroom(w, cs[..k]) + Cap(w, cs[k]) >= UINT32_LIMIT
    ensures IsCappedRun(w, es, run) && !Follows(w, run[|es|], a)
  {
    var cs := w.CriteriaList(a.TestId());
    var c, h := cs[k], Headroom(w, cs[..k]);
    SummedKnows(w, a, k);
    HeadroomFits(w, cs[..k]);
    es, run := FillHeadroom(w, a, k);
    var p := run[|es|].progress;
    assert Counter(p, c.id) == 0;
    hide Headroom, Cap, IsCappedRun, Filled;
    es, run := RaiseRun(w, es, run, c, UINT32_LIMIT - 1 - h);
    var s1 := run[|es|];
    LastDecides(w, p, s1.progress, a, k, UINT32_LIMIT - 1 - h);
    assert a.id in s1.completed by {
      hide Done;
      assert !Missed(w, PLAYER, s1, a);
    }
    es, run := RaiseRun(w, es, run, c, UINT32_LIMIT - h);
    LastDecides(w, p, run[|es|].progress, a, k, UINT32_LIMIT - h);
    hide Done;
  }

  // ---------------------------------------------------------------- exactly

  /** The test and the record of the achievement can come apart: it borrows from a pure counter, or its sum can
      run over before it passes. */
  ghost predicate CanComeApart(w: World, a: Achievement) {
    var cs := w.CriteriaList(a.TestId());
    if w.PureCounter(a.TestId()) then cs != [] else CanRunOver(w, cs)
  }

  ghost predicate SumFollows(w: World, a: Achievement, es: seq<Env>, run: seq<State>) {
    IsCappedRun(w, es, run) ==> Follows(w, run[|es|], a)
  }

  /** A pure counter's progress makes a borrowing sum pass, and records nothing. */
  lemma BorrowedSum(w: World, a: Achievement) returns (es: seq<Env>, run: seq<State>)
    requires w.WellFormed() && w.Has(a) && a.summ && !a.counter && w.PureCounter(a.TestId())
    requires w.CriteriaList(a.TestId()) != [] && Ordinary(w.CriteriaList(a.TestId()))
    ensures IsCappedRun(w, es, run) && !Follows(w, run[|es|], a)
  {
    var cs := w.CriteriaList(a.TestId());
    var c := cs[0];
    assert c in cs && w.Knows(c) && c.referredAchievement == a.TestId();
    var s := Recorded(PLAYER, NOTHING, c, UINT32_LIMIT - 1);
    CounterStep(w, PLAYER, NOTHING, c, UINT32_LIMIT - 1);
    es, run := [PLAYER], [NOTHING, s];
    assert Capped(w, s) && Capped(w, NOTHING);
    FirstReaches(s.progress, cs);
    hide Step, SumReached, Capped;
  }

  lemma FirstReaches(p: ProgressMap, cs: seq<Criteria>)
    requires cs != [] && Counter(p, cs[0].id) == UINT32_LIMIT - 1
    ensures SumReached(p, cs)
  {
    ReachedNext(p, cs, 0);
    assert cs[..0] == [] && CounterSum(p, []) == 0;
    hide CounterSum;
    assert cs[0].id in p && Wrap(CounterSum(p, cs[..0 + 1])) >= cs[0].rawCount;
  }

  /** Main result: for an untimed SUMM achievement that is neither a counter nor a realm first, record and test
      agree over all runs if and only if they cannot come apart. */
  lemma SumFollowsExactly(w: World, a: Achievement)
    requires w.WellFormed() && w.Has(a) && a.summ && !a.counter && !a.realmFirst
    requires forall c :: c in w.CriteriaList(a.TestId()) ==> c.timeLimit == 0
    requires CanComeApart(w, a) ==> Ordinary(w.CriteriaList(a.TestId()))
    ensures (forall es, run :: SumFollows(w, a, es, run)) <==> !CanComeApart(w, a)
  {
    var cs := w.CriteriaList(a.TestId());
    if CanComeApart(w, a) {
      var es, run := ComesApart(w, a);
      assert !SumFollows(w, a, es, run);
    } else {
      forall es, run ensures SumFollows(w, a, es, run) {
        if IsCappedRun(w, es, run) {
          StaysTogether(w, a, es, run);
        }
      }
    }
  }

  lemma ComesApart(w: World, a: Achievement) returns (es: seq<Env>, run: seq<State>)
    requires w.WellFormed() && w.Has(a) && a.summ && !a.counter && !a.realmFirst
    requires forall c :: c in w.CriteriaList(a.TestId()) ==> c.timeLimit == 0
    requires CanComeApart(w, a) && Ordinary(w.CriteriaList(a.TestId()))
    ensures IsCappedRun(w, es, run) && !Follows(w, run[|es|], a)
  {
    var cs := w.CriteriaList(a.TestId());
    if w.PureCounter(a.TestId()) {
      es, run := BorrowedSum(w, a);
    } else {
      assert Summed(w, a);
      hide Summed, IsCappedRun, Follows, Headroom, Cap, Ordinary, World.WellFormed;
      var k :| 0 <= k < |cs| && cs[k].rawCount > 0 && Headroom(w, cs[..k]) + Cap(w, cs[k]) >= UINT32_LIMIT;
      es, run := RunOver(w, a, k);
    }
  }

  lemma StaysTogether(w: World, a: Achievement, es: seq<Env>, run: seq<State>)
    requires w.WellFormed() && w.Has(a) && a.summ && !a.counter && !a.realmFirst
    requires forall c :: c in w.CriteriaList(a.TestId()) ==> c.timeLimit == 0
    requires !CanComeApart(w, a) && IsCappedRun(w, es, run)
    ensures Follows(w, run[|es|], a)
  {
    if w.PureCounter(a.TestId()) {
      NeverRecorded(w, es, run, a);
    } else {
      forall s | s in run && Wraps(w, s.progress, a) ensures Done(w, {}, s.progress, a) {
        WrappedStillPasses(w, s, a);
      }
      SumFollowsUnlessWrapped(w, es, run, a);
    }
  }

  // ---------------------------------------------------------------- the smallest case

  function SumPart(id: nat): Criteria { Criteria(id, 1, OtherType(UINT32_LIMIT - 1), 100, 0, false) }

  const TWO_PARTS: seq<Criteria> := [SumPart(7), SumPart(8)]

  /** One SUMM achievement over two criteria; it asks for 100. */
  const SUM_OF_TWO: Achievement := Achievement(1, 0, 0, 0, false, true, false, false)

  const SUM_WORLD: World :=
    World(map[1 := SUM_OF_TWO], map[7 := SumPart(7), 8 := SumPart(8)], map[1 := TWO_PARTS], map[], [], [])

  /** It is recorded, and the second criterion stands just below the 32-bit limit. */
  function SumState(first: uint32): State {
    var second := CriteriaProgress(0, UINT32_LIMIT - 10, true, false);
    State(map[7 := CriteriaProgress(0, first, true, false), 8 := second], map[1 := CompletedAchievementData(0, true)],
          map[], 0)
  }

  /** Where the sum runs over, one gaining call can leave the achievement recorded and failing its test. */
  lemma WrappedSumStaysRecorded(e: Env)
    ensures var w, s, s', a := SUM_WORLD, SumState(5), SumState(10), SUM_OF_TWO;
            && Valid(w, s) && Plain(w, a) && a.id in s.completed && a.id in s'.completed
            && Done(w, {}, s.progress, a) && !Wraps(w, s.progress, a)
            && Step(w, e, s, s')
            && !Done(w, {}, s'.progress, a) && Wraps(w, s'.progress, a)
  {
    SumWorldKnown();
    SumRaised(e);
    SumTest(5);
    SumTest(10);
    hide Step, Valid, Plain, Done, Wraps;
  }

  lemma SumWorldKnown()
    ensures Valid(SUM_WORLD, SumState(5)) && Plain(SUM_WORLD, SUM_OF_TWO)
  {
    SumWorldWellFormed();
    hide World.WellFormed;
  }

  lemma SumWorldWellFormed()
    ensures SUM_WORLD.WellFormed()
  {
  }

  lemma SumRaised(e: Env)
    ensures Step(SUM_WORLD, e, SumState(5), SumState(10))
  {
    var w, s, s', c := SUM_WORLD, SumState(5), SumState(10), SumPart(7);
    SumWorldKnown();
    hide Improves;
    assert Recorded(e, s, c, 10) == s';
    ImprovesReflexive(w, e, s');
    RaiseSettled(w, e, s, s', s', c, SUM_OF_TWO, 10);
  }

  lemma SumTest(first: uint32)
    requires first < 100
    ensures Wraps(SUM_WORLD, SumState(first).progress, SUM_OF_TWO) <==> first >= 10
    ensures Done(SUM_WORLD, {}, SumState(first).progress, SUM_OF_TWO) <==> first < 10
  {
    var p, cs := SumState(first).progress, TWO_PARTS;
    TwoCounters(p, SumPart(7), SumPart(8));
    hide CounterSum;
    assert cs[..0 + 1] == cs[..1] && cs[..1 + 1] == cs;
    if first < 10 {
      assert cs[1].id in p && Wrap(CounterSum(p, cs[..1 + 1])) >= cs[1].rawCount;
    }
  }

  lemma TwoCounters(p: ProgressMap, c: Criteria, d: Criteria)
    ensures CounterSum(p, [c, d][..1]) == Counter(p, c.id)
    ensures CounterSum(p, [c, d]) == Counter(p, c.id) + Counter(p, d.id)
  {
    assert [c, d][..1] == [c] && [c][..0] == [];
  }
}
