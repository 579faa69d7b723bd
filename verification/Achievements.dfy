/** The achievement engine: progress counters feed completion tests, and a completion re-enters
    the update loop.  Specification functions work on `State` values; the class
    `AchievementMgr` at the end updates its maps in place and is proved against them. */
module Achievements {
  import opened Machine
  import opened Ordering
  import opened Sums

  /** 32-bit arithmetic with wrap-around. */
  function Wrap(x: int): uint32 { x % UINT32_LIMIT }

  lemma WrapAdd(x: int, y: int)
    ensures Wrap(Wrap(x) + y) == Wrap(x + y)
  {
  }

  // ---------------------------------------------------------------- static data

  datatype CriteriaType =
    | CompleteAchievement(linkedAchievement: nat)
    | EarnAchievementPoints
    | OtherType(limit: uint32)

  datatype Criteria = Criteria(
    id: nat,
    referredAchievement: nat,
    requiredType: CriteriaType,
    rawCount: uint32,
    timeLimit: nat,
    manualStart: bool)
  {
    predicate ExplicitlyStartedTimed() { timeLimit != 0 && manualStart }
  }

  /** Each boolean is one tested bit of the `flags` word. */
  datatype Achievement = Achievement(
    id: nat,
    refAchievement: nat,
    count: uint32,
    points: uint32,
    counter: bool,
    summ: bool,
    reqCount: bool,
    realmFirst: bool)
  {
    /** The achievement whose criteria decide this one. */
    function TestId(): nat { if refAchievement != 0 then refAchievement else id }
  }

  datatype World = World(
    achievements: map<nat, Achievement>,
    criteria: map<nat, Criteria>,
    criteriaOf: map<nat, seq<Criteria>>,
    referencing: map<nat, seq<Achievement>>,
    completeList: seq<Criteria>,
    pointsList: seq<Criteria>)
  {
    ghost predicate Knows(c: Criteria) {
      c.id in criteria && criteria[c.id] == c && c.referredAchievement in achievements
    }

    ghost predicate Has(a: Achievement) {
      a.id in achievements && achievements[a.id] == a
    }

    /** What the loaders of the criteria and reference lists establish. */
    ghost predicate WellFormed() {
      && (forall i :: i in achievements ==> achievements[i].id == i)
      && (forall i :: i in criteria ==> criteria[i].id == i && criteria[i].referredAchievement in achievements)
      && (forall i :: i in criteriaOf ==> criteriaOf[i] != [])
      && (forall i, k :: i in criteriaOf && 0 <= k < |criteriaOf[i]| ==>
            Knows(criteriaOf[i][k]) && criteriaOf[i][k].referredAchievement == i)
      && (forall i, k :: i in referencing && 0 <= k < |referencing[i]| ==>
            Has(referencing[i][k]) && referencing[i][k].refAchievement == i)
      && (forall i :: i in achievements && achievements[i].refAchievement != 0 ==>
            achievements[i].refAchievement in referencing &&
            achievements[i] in referencing[achievements[i].refAchievement])
      && (forall k :: 0 <= k < |completeList| ==>
            Knows(completeList[k]) && completeList[k].requiredType.CompleteAchievement?)
      && (forall k :: 0 <= k < |pointsList| ==>
            Knows(pointsList[k]) && pointsList[k].requiredType.EarnAchievementPoints?)
    }

    function CriteriaList(id: nat): seq<Criteria> {
      if id in criteriaOf then criteriaOf[id] else []
    }

    function ReferenceList(id: nat): seq<Achievement> {
      if id in referencing then referencing[id] else []
    }

    /** A statistic that is not also a sum: its progress never triggers a completion test. */
    ghost predicate PureCounter(id: nat) {
      id in achievements && achievements[id].counter && !achievements[id].summ
    }
  }

  // ---------------------------------------------------------------- dynamic data

  datatype CriteriaProgress = CriteriaProgress(date: int, counter: uint32, changed: bool, timedCriteriaFailed: bool)
  datatype CompletedAchievementData = CompletedAchievementData(date: int, changed: bool)
  type ProgressMap = map<nat, CriteriaProgress>

  datatype State = State(
    progress: ProgressMap,
    completed: map<nat, CompletedAchievementData>,
    failTimes: map<nat, int>,
    points: uint32)

  /** What one call sees of the rest of the server: whether gains are allowed, which criteria meet
      their faction and additional requirements, which achievements the realm already holds, the clock. */
  datatype Env = Env(enabled: bool, eligible: set<nat>, realmCompleted: set<nat>, now: int)

  datatype ProgressType = ProgressSet | ProgressAccumulate | ProgressHighest

  function Counter(p: ProgressMap, id: nat): uint32 {
    if id in p then p[id].counter else 0
  }

  function MaxCounter(c: Criteria, a: Achievement): uint32 {
    if a.counter then UINT32_LIMIT - 1
    else match c.requiredType
         case CompleteAchievement(_) => 1
         case EarnAchievementPoints => 9000
         case OtherType(limit) => limit
  }

  lemma MaxIsLimit(c: Criteria, a: Achievement)
    ensures c.requiredType.OtherType? ==>
              MaxCounter(c, a) == if a.counter then 0xFFFF_FFFF else c.requiredType.limit
  {
  }

  /** The counter an existing record moves to. `change` is already clamped to `max`. */
  function NextCounter(max: uint32, counter: uint32, change: uint32, ptype: ProgressType): uint32 {
    match ptype
    case ProgressSet => change
    case ProgressAccumulate => if Wrap(max - counter) > change then Wrap(counter + change) else max
    case ProgressHighest => if counter < change then change else counter
  }

  function Min(a: int, b: int): int { if a < b then a else b }

  // ---------------------------------------------------------------- completion tests

  predicate CriteriaDone(realm: set<nat>, p: ProgressMap, c: Criteria, a: Achievement) {
    && !a.counter
    && !(a.realmFirst && a.id in realm)
    && c.id in p
    && (p[c.id].counter >= MaxCounter(c, a) || (a.reqCount && p[c.id].counter != 0))
  }

  function DoneCount(realm: set<nat>, p: ProgressMap, cs: seq<Criteria>, a: Achievement): nat {
    if cs == [] then 0
    else DoneCount(realm, p, cs[..|cs| - 1], a) + if CriteriaDone(realm, p, cs[|cs| - 1], a) then 1 else 0
  }

  function CounterSum(p: ProgressMap, cs: seq<Criteria>): nat {
    if cs == [] then 0 else CounterSum(p, cs[..|cs| - 1]) + Counter(p, cs[|cs| - 1].id)
  }

  /** Some criterion with progress meets its own required count by the running 32-bit sum. */
  ghost predicate SumReached(p: ProgressMap, cs: seq<Criteria>) {
    exists k :: 0 <= k < |cs| && cs[k].id in p && Wrap(CounterSum(p, cs[..k + 1])) >= cs[k].rawCount
  }

  /** The 32-bit sum of a SUMM achievement has run over. */
  ghost predicate Wraps(w: World, p: ProgressMap, a: Achievement) {
    a.summ && CounterSum(p, w.CriteriaList(a.TestId())) >= UINT32_LIMIT
  }

  /** When an achievement counts as earned: stated on the whole criteria list, without a loop. */
  ghost predicate Done(w: World, realm: set<nat>, p: ProgressMap, a: Achievement) {
    var cs := w.CriteriaList(a.TestId());
    && !a.counter
    && cs != []
    && if a.summ then SumReached(p, cs)
       else if a.count > 0 then DoneCount(realm, p, cs, a) >= a.count
       else forall k :: 0 <= k < |cs| ==> CriteriaDone(realm, p, cs[k], a)
  }

  lemma {:induction false} DoneCountAll(realm: set<nat>, p: ProgressMap, cs: seq<Criteria>, a: Achievement)
    ensures DoneCount(realm, p, cs, a) <= |cs|
    ensures DoneCount(realm, p, cs, a) == |cs| <==> forall k :: 0 <= k < |cs| ==> CriteriaDone(realm, p, cs[k], a)
  {
    hide CriteriaDone;
    if cs != [] {
      var front := cs[..|cs| - 1];
      DoneCountAll(realm, p, front, a);
      assert forall k :: 0 <= k < |front| ==> front[k] == cs[k];
    }
  }

  /** An achievement that does not sum asks for `count` done criteria, or for all of them. */
  lemma DoneIsCount(w: World, realm: set<nat>, p: ProgressMap, a: Achievement)
    requires !a.summ
    ensures var cs := w.CriteriaList(a.TestId());
            Done(w, realm, p, a) <==>
              !a.counter && cs != [] && DoneCount(realm, p, cs, a) >= (if a.count == 0 then |cs| else a.count)
  {
    DoneCountAll(realm, p, w.CriteriaList(a.TestId()), a);
    hide CriteriaDone, DoneCount;
  }

  /** The running sum is the total at the last criterion that has moved. */
  lemma {:induction false} SumAtLastMoved(p: ProgressMap, cs: seq<Criteria>) returns (k: nat)
    requires CounterSum(p, cs) > 0
    ensures k < |cs| && cs[k].id in p && CounterSum(p, cs[..k + 1]) == CounterSum(p, cs)
  {
    var n := |cs| - 1;
    assert cs[..n + 1] == cs;
    if cs[n].id in p && p[cs[n].id].counter > 0 {
      k := n;
    } else {
      k := SumAtLastMoved(p, cs[..n]);
      assert cs[..n][..k + 1] == cs[..k + 1];
    }
  }

  lemma RunningSumFits(p: ProgressMap, cs: seq<Criteria>, k: nat)
    requires k < |cs| && CounterSum(p, cs) < UINT32_LIMIT
    ensures Wrap(CounterSum(p, cs[..k + 1])) == CounterSum(p, cs[..k + 1]) <= CounterSum(p, cs)
  {
    SumPrefix(p, cs, k + 1);
    hide CounterSum;
  }

  lemma SumMeets(p: ProgressMap, cs: seq<Criteria>, n: nat)
    requires CounterSum(p, cs) < UINT32_LIMIT && 0 < n && forall k :: 0 <= k < |cs| ==> cs[k].rawCount == n
    ensures SumReached(p, cs) <==> CounterSum(p, cs) >= n
    ensures CounterSum(p, cs) >= n ==> cs != []
  {
    hide CounterSum, Wrap;
    if CounterSum(p, cs) >= n {
      var k := SumAtLastMoved(p, cs);
      RunningSumFits(p, cs, k);
      assert Wrap(CounterSum(p, cs[..k + 1])) >= cs[k].rawCount;
    } else if SumReached(p, cs) {
      var k :| 0 <= k < |cs| && cs[k].id in p && Wrap(CounterSum(p, cs[..k + 1])) >= cs[k].rawCount;
      RunningSumFits(p, cs, k);
    }
  }

  /** An achievement that sums, and asks the same of each of its criteria, passes exactly when the counters add up to
      that much. */
  lemma SumIsTotal(w: World, realm: set<nat>, p: ProgressMap, a: Achievement, n: nat)
    requires a.summ && !a.counter && 0 < n
    requires var cs := w.CriteriaList(a.TestId());
             CounterSum(p, cs) < 0x1_0000_0000 && forall k :: 0 <= k < |cs| ==> cs[k].rawCount == n
    ensures Done(w, realm, p, a) <==> CounterSum(p, w.CriteriaList(a.TestId())) >= n
  {
    SumMeets(p, w.CriteriaList(a.TestId()), n);
    hide SumReached, CounterSum;
  }

  // ---------------------------------------------------------------- what must hold between calls

  ghost predicate Valid(w: World, s: State) {
    && w.WellFormed()
    && s.completed.Keys <= w.achievements.Keys
    && s.progress.Keys <= w.criteria.Keys
    && Bounded(w, s)
    && TimersBacked(w, s)
  }

  /** A stored counter never exceeds a nonzero maximum. */
  ghost predicate Bounded(w: World, s: State) {
    forall i :: i in s.progress && i in w.criteria ==> BoundedBy(w, s.progress[i].counter, w.criteria[i])
  }

  ghost predicate BoundedBy(w: World, counter: uint32, c: Criteria) {
    c.referredAchievement in w.achievements ==>
      var max := MaxCounter(c, w.achievements[c.referredAchievement]);
      max != 0 ==> counter <= max
  }

  /** In a valid manager a criterion is done exactly when its counter is full, or has moved where that is enough;
      never for a statistic or a realm first that is taken. */
  lemma DoneIsFull(w: World, realm: set<nat>, s: State, c: Criteria, a: Achievement)
    requires Valid(w, s) && w.Knows(c) && a == w.achievements[c.referredAchievement]
    requires MaxCounter(c, a) != 0
    ensures var n := Counter(s.progress, c.id);
            CriteriaDone(realm, s.progress, c, a) <==>
              !a.counter && !(a.realmFirst && a.id in realm) && (if a.reqCount then n > 0 else n == MaxCounter(c, a))
  {
    assert w.criteria[c.id] == c;
  }

  /** Credit for an achievement counts once, points count up to 9000, and other criteria up to their own limit. */
  lemma CountersFit(w: World, s: State, c: Criteria)
    requires Valid(w, s) && w.Knows(c) && !w.achievements[c.referredAchievement].counter
    ensures var n := Counter(s.progress, c.id);
            match c.requiredType
            case CompleteAchievement(_) => n <= 1
            case EarnAchievementPoints => n <= 9000
            case OtherType(limit) => limit != 0 ==> n <= limit
  {
    assert w.criteria[c.id] == c;
  }

  function Cap(w: World, c: Criteria): uint32 {
    if c.referredAchievement in w.achievements then MaxCounter(c, w.achievements[c.referredAchievement]) else 0
  }

  /** Calls keep every counter within its maximum, a maximum of 0 included; only loading lets that one pass. */
  ghost predicate Capped(w: World, s: State) {
    forall i :: i in s.progress && i in w.criteria ==> s.progress[i].counter <= Cap(w, w.criteria[i])
  }

  /** Every running timer belongs to a timed criterion and has a progress record. */
  ghost predicate TimersBacked(w: World, s: State) {
    forall i :: i in s.failTimes ==> i in s.progress && i in w.criteria && w.criteria[i].timeLimit != 0
  }

  /** An achievement that passes its test but is not recorded. */
  ghost predicate Missed(w: World, e: Env, s: State, a: Achievement) {
    && w.Has(a)
    && a.id !in s.completed
    && !w.PureCounter(a.TestId())
    && Done(w, e.realmCompleted, s.progress, a)
  }

  /** A meta criterion whose linked achievement is recorded but which got no credit for it. */
  ghost predicate Uncredited(w: World, e: Env, s: State, c: Criteria) {
    && c in w.completeList
    && c.requiredType.CompleteAchievement?
    && e.enabled && c.id in e.eligible
    && c.timeLimit == 0
    && c.requiredType.linkedAchievement in s.completed
    && Counter(s.progress, c.id) == 0
  }

  /** A points criterion that lags behind the achievement points. */
  ghost predicate Lagging(w: World, e: Env, s: State, c: Criteria) {
    && c in w.pointsList
    && e.enabled && c.id in e.eligible
    && c.timeLimit == 0
    && c.referredAchievement in w.achievements
    && var a := w.achievements[c.referredAchievement];
    && !a.realmFirst
    && !CriteriaDone(e.realmCompleted, s.progress, c, a)
    && Counter(s.progress, c.id) < Min(s.points, MaxCounter(c, a))
  }

  ghost function PointsOf(w: World, ids: set<nat>): map<nat, int> {
    map i | i in ids && i in w.achievements :: w.achievements[i].points as int
  }

  /** The achievement points are the points of the recorded achievements, in 32 bits. */
  ghost predicate PointsExact(w: World, s: State) {
    s.points == Wrap(Sum(PointsOf(w, s.completed.Keys)))
  }

  // ---------------------------------------------------------------- what a gaining step keeps

  ghost predicate CountersGrow(p: ProgressMap, p': ProgressMap) {
    forall i :: i in p ==> i in p' && p[i].counter <= p'[i].counter
  }

  ghost predicate NoNewMissed(w: World, e: Env, s: State, s': State) {
    forall a :: Missed(w, e, s', a) ==> Missed(w, e, s, a)
  }

  ghost predicate NoNewUncredited(w: World, e: Env, s: State, s': State) {
    forall c :: Uncredited(w, e, s', c) ==> Uncredited(w, e, s, c)
  }

  /** Points only move together with the record, and then no points criterion is left behind. */
  ghost predicate PointsFollowed(w: World, e: Env, s: State, s': State) {
    if s'.completed.Keys == s.completed.Keys then
      && s'.points == s.points
      && forall c :: Lagging(w, e, s', c) ==> Lagging(w, e, s, c)
    else
      forall c :: !Lagging(w, e, s', c)
  }

  /** Whatever was recorded on the way passes its test (a wrapping sum may fall below it again). */
  ghost predicate SoundGains(w: World, e: Env, s: State, s': State) {
    forall i :: i in s'.completed && i !in s.completed ==>
      && i in w.achievements
      && (Done(w, e.realmCompleted, s'.progress, w.achievements[i]) || Wraps(w, s'.progress, w.achievements[i]))
  }

  /** Meta criteria only move when their linked achievement is recorded. */
  ghost predicate SoundCredits(w: World, s: State, s': State) {
    forall i :: i in w.criteria && w.criteria[i].requiredType.CompleteAchievement? ==>
      Counter(s'.progress, i) == Counter(s.progress, i) || w.criteria[i].requiredType.linkedAchievement in s'.completed
  }

  /** The effect of any call that does not lower a counter, however deep its recursion went. */
  ghost predicate Improves(w: World, e: Env, s: State, s': State) {
    && s.completed.Keys <= s'.completed.Keys
    && CountersGrow(s.progress, s'.progress)
    && NoNewMissed(w, e, s, s')
    && NoNewUncredited(w, e, s, s')
    && PointsFollowed(w, e, s, s')
    && SoundGains(w, e, s, s')
    && SoundCredits(w, s, s')
    && (PointsExact(w, s) ==> PointsExact(w, s'))
  }

  lemma {:induction false} DoneCountMonotone(realm: set<nat>, p: ProgressMap, p': ProgressMap, cs: seq<Criteria>,
                                             a: Achievement)
    requires CountersGrow(p, p')
    ensures DoneCount(realm, p, cs, a) <= DoneCount(realm, p', cs, a)
  {
    if cs != [] {
      DoneCountMonotone(realm, p, p', cs[..|cs| - 1], a);
    }
  }

  lemma {:induction false} SumGrows(p: ProgressMap, p': ProgressMap, cs: seq<Criteria>)
    requires CountersGrow(p, p')
    ensures CounterSum(p, cs) <= CounterSum(p', cs)
  {
    if cs != [] {
      SumGrows(p, p', cs[..|cs| - 1]);
    }
  }

  lemma {:induction false} SumPrefix(p: ProgressMap, cs: seq<Criteria>, n: nat)
    requires n <= |cs|
    ensures CounterSum(p, cs[..n]) <= CounterSum(p, cs)
  {
    if n < |cs| {
      assert cs[..|cs| - 1][..n] == cs[..n];
      SumPrefix(p, cs[..|cs| - 1], n);
    } else {
      assert cs[..n] == cs;
    }
  }

  lemma SumNext(p: ProgressMap, cs: seq<Criteria>, i: nat)
    requires i < |cs|
    ensures CounterSum(p, cs[..i + 1]) == CounterSum(p, cs[..i]) + Counter(p, cs[i].id)
  {
    assert cs[..i + 1][..i] == cs[..i];
  }

  lemma SumReachedGrows(p: ProgressMap, p': ProgressMap, cs: seq<Criteria>)
    requires CountersGrow(p, p') && SumReached(p, cs) && CounterSum(p', cs) < UINT32_LIMIT
    ensures SumReached(p', cs)
  {
    hide CounterSum, Wrap;
    var k :| 0 <= k < |cs| && cs[k].id in p && Wrap(CounterSum(p, cs[..k + 1])) >= cs[k].rawCount;
    PrefixGrows(p, p', cs, k + 1);
  }

  lemma PrefixGrows(p: ProgressMap, p': ProgressMap, cs: seq<Criteria>, n: nat)
    requires CountersGrow(p, p') && n <= |cs| && CounterSum(p', cs) < UINT32_LIMIT
    ensures Wrap(CounterSum(p, cs[..n])) <= Wrap(CounterSum(p', cs[..n]))
  {
    SumGrows(p, p', cs[..n]);
    SumPrefix(p', cs, n);
    hide CounterSum;
  }

  /** Growing counters never undo a completion, except through a wrapping sum. */
  lemma DoneMonotone(w: World, realm: set<nat>, p: ProgressMap, p': ProgressMap, a: Achievement)
    requires CountersGrow(p, p') && !Wraps(w, p', a) && Done(w, realm, p, a)
    ensures Done(w, realm, p', a)
  {
    hide CriteriaDone, SumReached;
    var cs := w.CriteriaList(a.TestId());
    if a.summ {
      SumReachedGrows(p, p', cs);
    } else {
      DoneCountMonotone(realm, p, p', cs, a);
      CriteriaMonotone(realm, p, p', a);
    }
  }

  lemma CriteriaMonotone(realm: set<nat>, p: ProgressMap, p': ProgressMap, a: Achievement)
    requires CountersGrow(p, p')
    ensures forall c :: CriteriaDone(realm, p, c, a) ==> CriteriaDone(realm, p', c, a)
  {
  }

  lemma WrapsForGood(w: World, p: ProgressMap, p': ProgressMap, a: Achievement)
    requires CountersGrow(p, p') && Wraps(w, p, a)
    ensures Wraps(w, p', a)
  {
    SumGrows(p, p', w.CriteriaList(a.TestId()));
  }

  lemma ImprovesTransitive(w: World, e: Env, s0: State, s1: State, s2: State)
    requires Improves(w, e, s0, s1) && Improves(w, e, s1, s2)
    ensures Improves(w, e, s0, s2)
  {
    assert SoundGains(w, e, s0, s2) by {
      hide Done, Wraps;
      forall i | i in s2.completed && i !in s0.completed
        ensures i in w.achievements
        ensures Done(w, e.realmCompleted, s2.progress, w.achievements[i]) || Wraps(w, s2.progress, w.achievements[i])
      {
        if i in s1.completed {
          GainStays(w, e.realmCompleted, s1.progress, s2.progress, w.achievements[i]);
        }
      }
    }
    hide Done, Wraps;
  }

  lemma GainStays(w: World, realm: set<nat>, p: ProgressMap, p': ProgressMap, a: Achievement)
    requires CountersGrow(p, p') && (Done(w, realm, p, a) || Wraps(w, p, a))
    ensures Done(w, realm, p', a) || Wraps(w, p', a)
  {
    if Wraps(w, p, a) {
      WrapsForGood(w, p, p', a);
    } else if !Wraps(w, p', a) {
      DoneMonotone(w, realm, p, p', a);
    }
  }

  // ---------------------------------------------------------------- one counter moves

  lemma {:induction false} DoneCountSame(realm: set<nat>, p: ProgressMap, p': ProgressMap, cs: seq<Criteria>,
                                         a: Achievement)
    requires forall k :: 0 <= k < |cs| ==> CriteriaDone(realm, p, cs[k], a) == CriteriaDone(realm, p', cs[k], a)
    ensures DoneCount(realm, p, cs, a) == DoneCount(realm, p', cs, a)
  {
    if cs != [] {
      DoneCountSame(realm, p, p', cs[..|cs| - 1], a);
    }
  }

  lemma {:induction false} CounterSumSame(p: ProgressMap, p': ProgressMap, cs: seq<Criteria>)
    requires forall c :: c in cs ==> Counter(p, c.id) == Counter(p', c.id)
    ensures CounterSum(p, cs) == CounterSum(p', cs)
  {
    if cs != [] {
      CounterSumSame(p, p', cs[..|cs| - 1]);
    }
  }

  /** A completion test only reads the criteria of its own list. */
  lemma DoneLocal(w: World, realm: set<nat>, p: ProgressMap, p': ProgressMap, a: Achievement)
    requires forall c :: c in w.CriteriaList(a.TestId()) ==>
               (c.id in p <==> c.id in p') && (c.id in p ==> p[c.id].counter == p'[c.id].counter)
    ensures Done(w, realm, p, a) == Done(w, realm, p', a)
  {
    var cs := w.CriteriaList(a.TestId());
    forall k | 0 <= k < |cs|
      ensures CriteriaDone(realm, p, cs[k], a) == CriteriaDone(realm, p', cs[k], a)
      ensures CounterSum(p, cs[..k + 1]) == CounterSum(p', cs[..k + 1])
    {
      assert cs[k] in cs;
      assert forall c :: c in cs[..k + 1] ==> c in cs;
      CounterSumSame(p, p', cs[..k + 1]);
    }
    DoneCountSame(realm, p, p', cs, a);
    if a.summ {
      forall k | 0 <= k < |cs| ensures cs[k].id in p <==> cs[k].id in p' {
        assert cs[k] in cs;
      }
    }
  }

  /** A test that does not sum only depends on which of its criteria are done. */
  lemma DoneByCriteria(w: World, realm: set<nat>, p: ProgressMap, p': ProgressMap, a: Achievement)
    requires !a.summ
    requires forall c :: c in w.CriteriaList(a.TestId()) ==>
               CriteriaDone(realm, p, c, a) == CriteriaDone(realm, p', c, a)
    ensures Done(w, realm, p, a) == Done(w, realm, p', a)
  {
    var cs := w.CriteriaList(a.TestId());
    forall k | 0 <= k < |cs|
      ensures CriteriaDone(realm, p, cs[k], a) == CriteriaDone(realm, p', cs[k], a)
    {
      assert cs[k] in cs;
    }
    DoneCountSame(realm, p, p', cs, a);
  }

  /** The counter a call wants to store; a fresh record takes the clamped change itself. */
  function NewValue(s: State, c: Criteria, a: Achievement, change: uint32, ptype: ProgressType): uint32 {
    var max := MaxCounter(c, a);
    var clamped := if change > max then max else change;
    if c.id in s.progress then NextCounter(max, s.progress[c.id].counter, clamped, ptype) else clamped
  }

  /** The calls that leave everything as it is. */
  predicate Ignored(s: State, c: Criteria, a: Achievement, change: uint32, ptype: ProgressType) {
    if c.id in s.progress then NewValue(s, c, a, change, ptype) == s.progress[c.id].counter
    else NewValue(s, c, a, change, ptype) == 0 || c.ExplicitlyStartedTimed()
  }

  /** The state right after the new counter is stored, before any dependent achievement is looked at. */
  function Recorded(e: Env, s: State, c: Criteria, newValue: uint32): State {
    if c.id in s.progress then
      s.(progress := s.progress[c.id := s.progress[c.id].(counter := newValue, changed := true)])
    else
      s.(progress := s.progress[c.id := CriteriaProgress(e.now, newValue, true, false)],
         failTimes := if c.timeLimit != 0 then s.failTimes[c.id := e.now + c.timeLimit] else s.failTimes)
  }

  /** Criteria of the types driven from outside keep their records and timers. */
  ghost predicate OthersSame(w: World, s: State, s': State) {
    forall i :: i in w.criteria && w.criteria[i].requiredType.OtherType? ==> SameRecord(s, s', i)
  }

  ghost predicate SameRecord(s: State, s': State, i: nat) {
    && (i in s.progress <==> i in s'.progress)
    && (i in s.progress ==> s.progress[i] == s'.progress[i])
    && (i in s.failTimes <==> i in s'.failTimes)
    && (i in s.failTimes ==> s.failTimes[i] == s'.failTimes[i])
  }

  /** With the counter inside its bound, a 32-bit accumulate is the bounded sum over the naturals. */
  lemma AccumulateIsBoundedSum(max: uint32, counter: uint32, change: uint32)
    requires counter <= max && change <= max
    ensures NextCounter(max, counter, change, ProgressAccumulate) == Min(max, counter + change)
  {
  }

  /** Every way to move a bounded counter stays inside the bound, and only SET can lower it. */
  lemma NextCounterBounded(w: World, s: State, c: Criteria, a: Achievement, change: uint32, ptype: ProgressType)
    requires Valid(w, s) && w.Knows(c) && a == w.achievements[c.referredAchievement]
    ensures BoundedBy(w, NewValue(s, c, a, change, ptype), c)
    ensures !ptype.ProgressSet? ==> NewValue(s, c, a, change, ptype) >= Counter(s.progress, c.id)
  {
    if c.id in s.progress {
      assert w.criteria[c.id] == c;
      assert BoundedBy(w, s.progress[c.id].counter, c);
    }
  }

  /** The same for counters that keep to any maximum: criteria of maximum 0 are never meta criteria. */
  lemma CallKeepsCapped(w: World, e: Env, s: State, s': State, c: Criteria, a: Achievement, change: uint32,
                        ptype: ProgressType)
    requires Valid(w, s') && w.Knows(c) && a == w.achievements[c.referredAchievement]
    requires var v := NewValue(s, c, a, change, ptype); OthersSame(w, Recorded(e, s, c, v), s')
    ensures Capped(w, s) ==> Capped(w, s')
  {
    if Capped(w, s) {
      assert c.id in s.progress ==> s.progress[c.id].counter <= Cap(w, w.criteria[c.id]);
      var v := NewValue(s, c, a, change, ptype);
      assert v <= Cap(w, c);
      hide NewValue;
      forall i | i in s'.progress && i in w.criteria ensures s'.progress[i].counter <= Cap(w, w.criteria[i]) {
        var d := w.criteria[i];
        assert BoundedBy(w, s'.progress[i].counter, d);
        if Cap(w, d) == 0 {
          assert d.requiredType.OtherType? && SameRecord(Recorded(e, s, c, v), s', i);
        }
      }
    }
  }

  /** How a stored counter moves, in whole numbers: SET stores the change, ACCUMULATE adds it and HIGHEST keeps the
      larger, none of them above the maximum. */
  ghost predicate Moves(before: nat, after: nat, max: nat, change: nat, ptype: ProgressType) {
    match ptype
    case ProgressSet => after == Min(change, max)
    case ProgressAccumulate => after == if max == 0 then before else Min(before + change, max)
    case ProgressHighest => before <= after && Min(change, max) <= after && after in {before, Min(change, max)}
  }

  /** Where the counter of an ordinary criterion ends up: a new record holds the change, is dated and starts its timer,
      and a criterion that has to be started by hand gets none. */
  ghost predicate StoredAs(e: Env, s: State, s': State, c: Criteria, max: nat, change: nat, ptype: ProgressType) {
    var before, after := Counter(s.progress, c.id), Counter(s'.progress, c.id);
    if c.id in s.progress then Moves(before, after, max, change, ptype)
    else
      && after == (if c.timeLimit != 0 && c.manualStart then 0 else Min(change, max))
      && (after > 0 ==>
            && s'.progress[c.id].date == e.now && s'.progress[c.id].changed
            && (c.timeLimit != 0 ==> c.id in s'.failTimes && s'.failTimes[c.id] == e.now + c.timeLimit))
  }

  lemma NewValueExactly(s: State, c: Criteria, a: Achievement, change: uint32, ptype: ProgressType)
    requires c.id in s.progress && (MaxCounter(c, a) != 0 ==> s.progress[c.id].counter <= MaxCounter(c, a))
    ensures Moves(s.progress[c.id].counter, NewValue(s, c, a, change, ptype), MaxCounter(c, a), change, ptype)
  {
    var before, max := s.progress[c.id].counter, MaxCounter(c, a);
    hide MaxCounter;
    if ptype.ProgressAccumulate? && max != 0 {
      AccumulateIsBoundedSum(max, before, Min(change, max));
    }
  }

  lemma StoredExactly(w: World, e: Env, s: State, s': State, c: Criteria, a: Achievement, change: uint32,
                      ptype: ProgressType)
    requires Valid(w, s) && w.Knows(c) && a == w.achievements[c.referredAchievement] && c.requiredType.OtherType?
    requires if Ignored(s, c, a, change, ptype) then s' == s
             else OthersSame(w, Recorded(e, s, c, NewValue(s, c, a, change, ptype)), s')
    ensures StoredAs(e, s, s', c, MaxCounter(c, a), change, ptype)
  {
    if c.id in s.progress {
      assert BoundedBy(w, s.progress[c.id].counter, w.criteria[c.id]);
    }
    hide Valid, World.WellFormed, MaxCounter, BoundedBy;
    if !Ignored(s, c, a, change, ptype) {
      assert SameRecord(Recorded(e, s, c, NewValue(s, c, a, change, ptype)), s', c.id);
    }
    hide OthersSame;
    if c.id in s.progress {
      NewValueExactly(s, c, a, change, ptype);
      hide NewValue;
    }
  }

  lemma RecordedValid(w: World, e: Env, s: State, c: Criteria, a: Achievement, change: uint32, ptype: ProgressType)
    requires Valid(w, s) && w.Knows(c) && a == w.achievements[c.referredAchievement]
    ensures Valid(w, Recorded(e, s, c, NewValue(s, c, a, change, ptype)))
  {
    NextCounterBounded(w, s, c, a, change, ptype);
    hide NewValue, BoundedBy;
  }

  ghost predicate Raises(w: World, e: Env, s: State, s1: State, c: Criteria, v: uint32) {
    && w.WellFormed() && w.Knows(c)
    && Counter(s.progress, c.id) < v
    && s1 == Recorded(e, s, c, v)
    && (c.requiredType.CompleteAchievement? ==> c.requiredType.linkedAchievement in s.completed)
  }

  lemma RaiseKeepsCredits(w: World, e: Env, s: State, s1: State, c: Criteria, v: uint32)
    requires Raises(w, e, s, s1, c, v)
    ensures CountersGrow(s.progress, s1.progress)
    ensures NoNewUncredited(w, e, s, s1) && SoundGains(w, e, s, s1) && SoundCredits(w, s, s1)
  {
  }

  lemma RaiseKeepsPoints(w: World, e: Env, s: State, s1: State, c: Criteria, v: uint32)
    requires Raises(w, e, s, s1, c, v)
    ensures PointsFollowed(w, e, s, s1)
  {
    forall d | Lagging(w, e, s1, d)
      ensures Lagging(w, e, s, d)
    {
      assert Counter(s.progress, d.id) <= Counter(s1.progress, d.id);
    }
  }

  /** A raised counter can only make the achievements tested by its own list pass. */
  lemma RaiseMissesOnlyDependents(w: World, e: Env, s: State, s1: State, c: Criteria, v: uint32, b: Achievement)
    requires Raises(w, e, s, s1, c, v) && Missed(w, e, s1, b)
    requires b.TestId() == c.referredAchievement ==>
               !b.summ && b.id == c.referredAchievement && !CriteriaDone(e.realmCompleted, s1.progress, c, b)
    ensures Missed(w, e, s, b)
  {
    var cs := w.CriteriaList(b.TestId());
    if b.TestId() == c.referredAchievement {
      forall d | d in cs
        ensures CriteriaDone(e.realmCompleted, s.progress, d, b) == CriteriaDone(e.realmCompleted, s1.progress, d, b)
      {
        assert w.Knows(d);
      }
      DoneByCriteria(w, e.realmCompleted, s.progress, s1.progress, b);
    } else {
      forall d | d in cs
        ensures d.id != c.id
      {
        assert w.Knows(d) && d.referredAchievement == b.TestId();
      }
      DoneLocal(w, e.realmCompleted, s.progress, s1.progress, b);
    }
  }

  /** Once every dependent achievement has been tested after the raise, nothing is newly missed. */
  lemma RaiseSettled(w: World, e: Env, s: State, s1: State, s': State, c: Criteria, a: Achievement, v: uint32)
    requires Raises(w, e, s, s1, c, v) && a == w.achievements[c.referredAchievement]
    requires Improves(w, e, s1, s')
    requires !(a.counter && !a.summ) ==>
               (CriteriaDone(e.realmCompleted, s1.progress, c, a) || a.summ ==> !Missed(w, e, s', a)) &&
               forall b :: b in w.ReferenceList(a.id) ==> !Missed(w, e, s', b)
    ensures Improves(w, e, s, s')
  {
    RaiseKeepsCredits(w, e, s, s1, c, v);
    RaiseKeepsPoints(w, e, s, s1, c, v);
    assert NoNewMissed(w, e, s, s') by {
      forall b | Missed(w, e, s', b)
        ensures Missed(w, e, s, b)
      {
        assert Missed(w, e, s1, b);
        assert b.refAchievement == a.id && a.id != 0 ==> b in w.ReferenceList(a.id);
        RaiseMissesOnlyDependents(w, e, s, s1, c, v, b);
      }
    }
    assert SoundGains(w, e, s, s');
    assert PointsExact(w, s) ==> PointsExact(w, s1);
  }

  /** The achievements a lowered counter takes back: its own and those that refer to it, when they fail now. */
  ghost predicate Withdrawn(w: World, e: Env, p: ProgressMap, id: nat, refs: seq<Achievement>, i: nat) {
    && i in w.achievements
    && var b := w.achievements[i];
    && !b.counter
    && !Done(w, e.realmCompleted, p, b)
    && (i == id || b in refs)
  }

  ghost function WithdrawnIds(w: World, e: Env, p: ProgressMap, id: nat, refs: seq<Achievement>): set<nat> {
    set i | i in w.achievements && Withdrawn(w, e, p, id, refs, i)
  }

  lemma WithdrawnFirst(w: World, e: Env, p: ProgressMap, a: Achievement)
    requires w.Has(a)
    ensures WithdrawnIds(w, e, p, a.id, []) ==
              if !a.counter && !Done(w, e.realmCompleted, p, a) then {a.id} else {}
  {
  }

  lemma WithdrawnNext(w: World, e: Env, p: ProgressMap, id: nat, refs: seq<Achievement>, b: Achievement)
    requires w.Has(b) && w.WellFormed() && forall d :: d in refs ==> w.Has(d)
    ensures WithdrawnIds(w, e, p, id, refs + [b]) ==
              WithdrawnIds(w, e, p, id, refs) + if !b.counter && !Done(w, e.realmCompleted, p, b) then {b.id} else {}
  {
  }

  lemma ListsKnown(w: World, s: State, a: Achievement)
    requires Valid(w, s) && w.Has(a)
    ensures w.WellFormed()
    ensures forall b :: b in w.ReferenceList(a.id) ==> w.Has(b)
    ensures forall i :: i in w.criteriaOf ==> w.criteriaOf[i] != []
  {
  }

  ghost predicate Lowers(w: World, e: Env, s: State, s': State, c: Criteria, v: uint32)
  {
    && w.Knows(c)
    && c.requiredType.OtherType?
    && c.id in s.progress
    && v < s.progress[c.id].counter
    && var s1 := Recorded(e, s, c, v);
    && s'.progress == s1.progress
    && s'.failTimes == s.failTimes
    && s'.points == s.points
    && s'.completed ==
         if w.PureCounter(c.referredAchievement) then s.completed
         else s.completed -
              WithdrawnIds(w, e, s1.progress, c.referredAchievement, w.ReferenceList(c.referredAchievement))
  }

  lemma ImprovesReflexive(w: World, e: Env, s: State)
    ensures Improves(w, e, s, s)
  {
  }

  lemma OthersSameReflexive(w: World, s: State)
    ensures OthersSame(w, s, s)
  {
  }

  /** Taking completions back leaves a valid state. */
  lemma LoweredValid(w: World, s: State, s': State)
    requires Valid(w, s)
    requires s'.completed.Keys <= s.completed.Keys && s' == s.(completed := s'.completed)
    ensures Valid(w, s') && OthersSame(w, s, s')
  {
  }

  lemma DependentsKnown(w: World, s: State, c: Criteria)
    requires Valid(w, s) && w.Knows(c)
    ensures w.WellFormed()
    ensures w.Has(w.achievements[c.referredAchievement])
    ensures w.achievements[c.referredAchievement].id == c.referredAchievement
    ensures forall b :: b in w.ReferenceList(c.referredAchievement) ==> w.Has(b)
    ensures c.id in s.progress ==> w.criteria[c.id] == c
  {
  }

  lemma GrowthOnly(w: World, e: Env, s: State, s': State)
    requires Improves(w, e, s, s')
    ensures w.achievements.Keys - s'.completed.Keys <= w.achievements.Keys - s.completed.Keys
    ensures forall i :: Counter(s.progress, i) <= Counter(s'.progress, i)
  {
  }

  /** One more improving step: the chain so far improves, and what was tested stays tested. */
  lemma Chain(w: World, e: Env, s0: State, s1: State, s2: State)
    requires Improves(w, e, s0, s1) && Improves(w, e, s1, s2)
    requires OthersSame(w, s0, s1) && OthersSame(w, s1, s2)
    ensures Improves(w, e, s0, s2) && OthersSame(w, s0, s2)
    ensures forall b :: !Missed(w, e, s1, b) ==> !Missed(w, e, s2, b)
  {
    ImprovesTransitive(w, e, s0, s1, s2);
  }

  lemma OthersSameTransitive(w: World, s0: State, s1: State, s2: State)
    ensures OthersSame(w, s0, s1) && OthersSame(w, s1, s2) ==> OthersSame(w, s0, s2)
  {
  }

  lemma MetaRecordIsNoOther(w: World, e: Env, s: State, c: Criteria, v: uint32)
    requires w.Knows(c) && !c.requiredType.OtherType?
    ensures OthersSame(w, s, Recorded(e, s, c, v))
  {
  }

  /** A points criterion that does not lag is at the points, or at 9000. */
  lemma PointsReached(w: World, e: Env, s: State, c: Criteria)
    requires !Lagging(w, e, s, c) && c in w.pointsList && c.requiredType.EarnAchievementPoints?
    requires e.enabled && c.id in e.eligible && c.timeLimit == 0 && c.referredAchievement in w.achievements
    requires var a := w.achievements[c.referredAchievement]; !a.realmFirst && !a.reqCount && !a.counter
    ensures Counter(s.progress, c.id) >= Min(s.points, 9000)
  {
  }

  lemma NoCredits(w: World, e: Env, s: State)
    requires !e.enabled
    ensures forall c :: !Uncredited(w, e, s, c) && !Lagging(w, e, s, c)
  {
  }

  lemma StaysCredited(w: World, e: Env, s: State, s': State)
    requires Improves(w, e, s, s')
    ensures forall c :: !Uncredited(w, e, s, c) ==> !Uncredited(w, e, s', c)
    ensures forall c :: !Lagging(w, e, s, c) ==> !Lagging(w, e, s', c)
  {
  }

  /** The update loop's reasons to skip a criterion all mean that there is nothing to credit. */
  lemma SkipAllowed(w: World, e: Env, s: State, c: Criteria, a: Achievement)
    requires Valid(w, s) && w.Knows(c) && a == w.achievements[c.referredAchievement]
    ensures CriteriaDone(e.realmCompleted, s.progress, c, a) ==> !Uncredited(w, e, s, c) && !Lagging(w, e, s, c)
    ensures c.id !in e.eligible || c.requiredType.OtherType? ==> !Uncredited(w, e, s, c) && !Lagging(w, e, s, c)
    ensures c.requiredType.CompleteAchievement? && c.requiredType.linkedAchievement !in s.completed ==>
              !Uncredited(w, e, s, c) && !Lagging(w, e, s, c)
  {
  }

  lemma CreditGiven(w: World, e: Env, s: State, s': State, c: Criteria, a: Achievement, change: uint32)
    requires Valid(w, s') && w.Knows(c) && a == w.achievements[c.referredAchievement]
    requires Improves(w, e, s, s')
    requires c.requiredType.CompleteAchievement? ==> change == 1
    requires c.requiredType.EarnAchievementPoints? ==> change == s.points
    requires !c.requiredType.OtherType? && c.timeLimit == 0 ==>
               Counter(s'.progress, c.id) >= Min(change, MaxCounter(c, a))
    ensures !Uncredited(w, e, s', c) && !Lagging(w, e, s', c)
  {
  }

  lemma {:induction false} DoneCountPrefix(realm: set<nat>, p: ProgressMap, cs: seq<Criteria>, n: nat, a: Achievement)
    requires n <= |cs|
    ensures DoneCount(realm, p, cs[..n], a) <= DoneCount(realm, p, cs, a)
  {
    if n < |cs| {
      assert cs[..|cs| - 1][..n] == cs[..n];
      DoneCountPrefix(realm, p, cs[..|cs| - 1], n, a);
    } else {
      assert cs[..n] == cs;
    }
  }

  ghost predicate Enters(w: World, e: Env, s: State, s1: State, a: Achievement) {
    && w.Has(a)
    && a.id !in s.completed
    && Done(w, e.realmCompleted, s.progress, a)
    && s1 == s.(completed := s.completed[a.id := CompletedAchievementData(e.now, true)],
                points := Wrap(s.points + a.points))
  }

  lemma EntryMissesNothing(w: World, e: Env, s: State, s1: State, s': State, a: Achievement)
    requires Enters(w, e, s, s1, a) && NoNewMissed(w, e, s1, s')
    ensures NoNewMissed(w, e, s, s')
  {
    forall b | Missed(w, e, s', b)
      ensures Missed(w, e, s, b)
    {
      assert Missed(w, e, s1, b);
    }
  }

  lemma EntrySound(w: World, e: Env, s: State, s1: State, s': State, a: Achievement)
    requires Enters(w, e, s, s1, a) && Improves(w, e, s1, s')
    ensures SoundGains(w, e, s, s') && SoundCredits(w, s, s')
    ensures s.completed.Keys < s'.completed.Keys
  {
    hide Missed, Lagging, Uncredited, PointsExact;
    if !Wraps(w, s'.progress, a) {
      hide NoNewMissed, NoNewUncredited, PointsFollowed, SoundGains, SoundCredits;
      DoneMonotone(w, e.realmCompleted, s.progress, s'.progress, a);
    }
    hide Done;
    assert a.id in s1.completed.Keys;
  }

  /** Recording an achievement settles once both meta lists have been run over. */
  lemma EntrySettled(w: World, e: Env, s: State, s1: State, s': State, a: Achievement)
    requires Enters(w, e, s, s1, a) && Improves(w, e, s1, s')
    requires e.enabled ==> forall k :: 0 <= k < |w.completeList| ==> !Uncredited(w, e, s', w.completeList[k])
    requires e.enabled ==> forall k :: 0 <= k < |w.pointsList| ==> !Lagging(w, e, s', w.pointsList[k])
    ensures Improves(w, e, s, s')
  {
    EntrySound(w, e, s, s1, s', a);
    EntryMissesNothing(w, e, s, s1, s', a);
    EntryPoints(w, s, s1, a);
    hide Done, Missed, PointsExact, SoundGains, SoundCredits, NoNewMissed;
  }

  lemma EntryValid(w: World, e: Env, s: State, s1: State, a: Achievement)
    requires Valid(w, s) && w.Has(a) && a.id !in s.completed
    requires Done(w, e.realmCompleted, s.progress, a)
    requires s1 == s.(completed := s.completed[a.id := CompletedAchievementData(e.now, true)],
                      points := Wrap(s.points + a.points))
    ensures Enters(w, e, s, s1, a)
    ensures Valid(w, s1) && OthersSame(w, s, s1)
    ensures w.achievements.Keys - s1.completed.Keys < w.achievements.Keys - s.completed.Keys
    ensures forall k :: 0 <= k < |w.completeList| ==>
              w.Knows(w.completeList[k]) && !w.completeList[k].requiredType.OtherType?
    ensures forall k :: 0 <= k < |w.pointsList| ==> w.Knows(w.pointsList[k]) && !w.pointsList[k].requiredType.OtherType?
    ensures !HasSet(map[])
  {
    assert a.id in w.achievements.Keys - s.completed.Keys;
  }

  lemma EntryPoints(w: World, s: State, s1: State, a: Achievement)
    requires w.Has(a) && a.id !in s.completed
    requires s1.completed.Keys == s.completed.Keys + {a.id} && s1.points == Wrap(s.points + a.points)
    ensures PointsExact(w, s) ==> PointsExact(w, s1)
  {
    var before, after := PointsOf(w, s.completed.Keys), PointsOf(w, s1.completed.Keys);
    assert after == before[a.id := a.points] && a.id !in before;
    SumUpdate(before, a.id, a.points);
    WrapAdd(Sum(before), a.points);
    hide Wrap, Sum, PointsOf;
  }

  predicate HasSet(inputs: map<nat, (uint32, ProgressType)>) {
    exists i :: i in inputs && inputs[i].1.ProgressSet?
  }

  // ---------------------------------------------------------------- closure over runs

  /** Achievements whose record is decided by untimed criteria that nobody else's test races with. */
  ghost predicate Plain(w: World, a: Achievement) {
    && w.Has(a)
    && !a.counter && !a.realmFirst
    && !w.PureCounter(a.TestId())
    && forall c :: c in w.CriteriaList(a.TestId()) ==> c.timeLimit == 0
  }

  /** And no sum can run over. */
  ghost predicate Regular(w: World, a: Achievement) { Plain(w, a) && !a.summ }

  ghost predicate Follows(w: World, s: State, a: Achievement) {
    a.id in s.completed <==> Done(w, {}, s.progress, a)
  }

  /** A regular achievement is recorded exactly when it passes its test. */
  ghost predicate Closed(w: World, s: State) {
    forall a :: Regular(w, a) ==> Follows(w, s, a)
  }

  ghost predicate Settled(w: World, e: Env, s: State) {
    && Closed(w, s)
    && (forall c :: !Uncredited(w, e, s, c))
    && (forall c :: !Lagging(w, e, s, c))
  }

  /** Timers only touch the records of timed criteria. */
  ghost predicate TimedOnly(w: World, s: State, s': State) {
    && s'.completed == s.completed
    && s'.points == s.points
    && forall c :: w.Knows(c) && c.timeLimit == 0 ==> SameProgress(s, s', c.id)
  }

  ghost predicate SameProgress(s: State, s': State, i: nat) {
    (i in s.progress <==> i in s'.progress) && (i in s.progress ==> s.progress[i] == s'.progress[i])
  }

  /** One call from outside, seen from start to end. */
  ghost predicate Step(w: World, e: Env, s: State, s': State) { Call(w, e, s, s') || TimedOnly(w, s, s') }

  /** What storing progress once can do, with all that follows from it. */
  ghost predicate Call(w: World, e: Env, s: State, s': State) {
    || Improves(w, e, s, s')
    || (exists c, v :: Lowers(w, e, s, s', c, v))
  }

  ghost predicate Walk(w: World, e: Env, walk: seq<State>) {
    walk != [] && forall k :: 0 <= k < |walk| - 1 ==> Call(w, e, walk[k], walk[k + 1])
  }

  lemma WalkStarts(w: World, e: Env, s: State)
    ensures Walk(w, e, [s])
  {
  }

  lemma WalkGoesOn(w: World, e: Env, walk: seq<State>, s: State)
    requires Walk(w, e, walk) && Call(w, e, walk[|walk| - 1], s)
    ensures Walk(w, e, walk + [s])
  {
    hide Call;
    forall k | 0 <= k < |walk| ensures Call(w, e, (walk + [s])[k], (walk + [s])[k + 1]) {
      if k < |walk| - 1 {
        assert Call(w, e, walk[k], walk[k + 1]);
      }
    }
  }

  lemma CallCases(w: World, e: Env, s: State, s': State, c: Criteria, v: uint32)
    ensures s == s' ==> Call(w, e, s, s')
    ensures Improves(w, e, s, s') ==> Call(w, e, s, s')
    ensures Lowers(w, e, s, s', c, v) ==> Call(w, e, s, s')
  {
    ImprovesReflexive(w, e, s);
  }

  lemma RealmIrrelevant(w: World, realm: set<nat>, p: ProgressMap, a: Achievement)
    requires !a.realmFirst
    ensures Done(w, realm, p, a) == Done(w, {}, p, a)
  {
    var cs := w.CriteriaList(a.TestId());
    assert forall k :: 0 <= k < |cs| ==> CriteriaDone(realm, p, cs[k], a) == CriteriaDone({}, p, cs[k], a);
    DoneCountRealm(realm, p, cs, a);
  }

  lemma {:induction false} DoneCountRealm(realm: set<nat>, p: ProgressMap, cs: seq<Criteria>, a: Achievement)
    requires !a.realmFirst
    ensures DoneCount(realm, p, cs, a) == DoneCount({}, p, cs, a)
  {
    if cs != [] {
      DoneCountRealm(realm, p, cs[..|cs| - 1], a);
    }
  }

  lemma GainKeepsRecord(w: World, e: Env, s: State, s': State, a: Achievement)
    requires Plain(w, a) && Follows(w, s, a) && Improves(w, e, s, s')
    requires Wraps(w, s'.progress, a) ==> Done(w, {}, s'.progress, a)
    ensures Follows(w, s', a)
  {
    RealmIrrelevant(w, e.realmCompleted, s'.progress, a);
    RealmIrrelevant(w, e.realmCompleted, s.progress, a);
    hide Done, Wraps;
    if a.id in s.completed && !Wraps(w, s'.progress, a) {
      DoneMonotone(w, {}, s.progress, s'.progress, a);
    }
    assert Missed(w, e, s', a) ==> Missed(w, e, s, a);
  }

  lemma LoweringKeepsRecord(w: World, e: Env, s: State, s': State, c: Criteria, v: uint32, a: Achievement)
    requires w.WellFormed() && Plain(w, a) && Follows(w, s, a) && Lowers(w, e, s, s', c, v)
    requires Wraps(w, s.progress, a) ==> Done(w, {}, s.progress, a)
    ensures Follows(w, s', a)
  {
    if a.TestId() == c.referredAchievement {
      LoweringDecides(w, e, s, s', c, v, a);
      if Done(w, {}, s'.progress, a) && !Wraps(w, s.progress, a) {
        DoneMonotone(w, {}, s'.progress, s.progress, a);
      }
    } else {
      LoweringElsewhere(w, e, s, s', c, v, a);
    }
  }

  /** The withdrawals look at exactly the achievements that the lowered counter can decide. */
  lemma LoweringDecides(w: World, e: Env, s: State, s': State, c: Criteria, v: uint32, a: Achievement)
    requires w.WellFormed() && Plain(w, a) && Lowers(w, e, s, s', c, v) && a.TestId() == c.referredAchievement
    requires Follows(w, s, a)
    ensures a.id in s'.completed <==> a.id in s.completed && Done(w, {}, s'.progress, a)
    ensures a.id in s.completed <==> Done(w, {}, s.progress, a)
    ensures CountersGrow(s'.progress, s.progress)
  {
    RealmIrrelevant(w, e.realmCompleted, s'.progress, a);
    hide Done;
    assert a.refAchievement != 0 ==> a in w.ReferenceList(c.referredAchievement);
  }

  lemma LoweringElsewhere(w: World, e: Env, s: State, s': State, c: Criteria, v: uint32, a: Achievement)
    requires w.WellFormed() && Plain(w, a) && Lowers(w, e, s, s', c, v) && a.TestId() != c.referredAchievement
    requires Follows(w, s, a)
    ensures Follows(w, s', a)
  {
    RealmIrrelevant(w, e.realmCompleted, s'.progress, a);
    hide Done;
    forall d | d in w.CriteriaList(a.TestId()) ensures d.id != c.id {
      assert w.Knows(d) && d.referredAchievement == a.TestId();
    }
    DoneLocal(w, {}, s.progress, s'.progress, a);
  }

  lemma TimersKeepRecord(w: World, s: State, s': State, a: Achievement)
    requires w.WellFormed() && Plain(w, a) && Follows(w, s, a) && TimedOnly(w, s, s')
    ensures Follows(w, s', a)
  {
    hide Done;
    forall d | d in w.CriteriaList(a.TestId()) ensures SameProgress(s, s', d.id) {
      assert w.Knows(d);
    }
    DoneLocal(w, {}, s.progress, s'.progress, a);
  }

  lemma ImprovingKeepsClosed(w: World, e: Env, s: State, s': State)
    requires Closed(w, s) && Improves(w, e, s, s')
    ensures Closed(w, s')
  {
    hide Improves, Follows, Plain;
    forall a | Regular(w, a) ensures Follows(w, s', a) {
      GainKeepsRecord(w, e, s, s', a);
    }
  }

  lemma LoweringKeepsClosed(w: World, e: Env, s: State, s': State, c: Criteria, v: uint32)
    requires w.WellFormed() && Closed(w, s) && Lowers(w, e, s, s', c, v)
    ensures Closed(w, s')
  {
    hide World.WellFormed, Lowers, Follows, Plain;
    forall a | Regular(w, a) ensures Follows(w, s', a) {
      LoweringKeepsRecord(w, e, s, s', c, v, a);
    }
  }

  lemma TimersKeepClosed(w: World, s: State, s': State)
    requires w.WellFormed() && Closed(w, s) && TimedOnly(w, s, s')
    ensures Closed(w, s')
  {
    hide World.WellFormed, TimedOnly, Follows, Plain;
    forall a | Regular(w, a) ensures Follows(w, s', a) {
      TimersKeepRecord(w, s, s', a);
    }
  }

  /** Whatever one call does, it leaves a settled manager settled. */
  lemma StepKeepsSettled(w: World, e: Env, s: State, s': State)
    requires w.WellFormed() && Step(w, e, s, s')
    ensures Settled(w, e, s) ==> Settled(w, e, s')
  {
    if !Settled(w, e, s) {
    } else if Improves(w, e, s, s') {
      ImprovingKeepsClosed(w, e, s, s');
      StaysCredited(w, e, s, s');
    } else if exists c, v :: Lowers(w, e, s, s', c, v) {
      var c, v :| Lowers(w, e, s, s', c, v);
      LoweringKeepsClosed(w, e, s, s', c, v);
      LoweringKeepsCredits(w, e, s, s', c, v);
    } else {
      TimersKeepClosed(w, s, s');
      TimersKeepCredits(w, e, s, s');
    }
  }

  lemma LoweringKeepsCredits(w: World, e: Env, s: State, s': State, c: Criteria, v: uint32)
    requires w.WellFormed() && Lowers(w, e, s, s', c, v)
    ensures forall d :: Uncredited(w, e, s', d) ==> Uncredited(w, e, s, d)
    ensures forall d :: Lagging(w, e, s', d) ==> Lagging(w, e, s, d)
  {
  }

  /** What a call that lowers the counter to `v` takes back: the recorded ones that then fail their test. */
  ghost function TakenBack(w: World, e: Env, s: State, c: Criteria, v: uint32): set<nat> {
    if w.PureCounter(c.referredAchievement) then {}
    else
      s.completed.Keys *
      WithdrawnIds(w, e, Recorded(e, s, c, v).progress, c.referredAchievement, w.ReferenceList(c.referredAchievement))
  }

  /** The points of these are not taken back, so the points stay exact just when they add up to nothing. */
  lemma LoweringKeepsPointsExactly(w: World, e: Env, s: State, s': State, c: Criteria, v: uint32)
    requires Lowers(w, e, s, s', c, v) && PointsExact(w, s)
    ensures PointsExact(w, s') <==> Wrap(Sum(PointsOf(w, TakenBack(w, e, s, c, v)))) == 0
  {
    hide Lowers, PointsOf, Wrap, Sum, TakenBack;
    LoweringShrinks(w, e, s, s', c, v);
    PointsSplit(w, s.completed.Keys, s'.completed.Keys);
    WrapSame(Sum(PointsOf(w, s'.completed.Keys)), Sum(PointsOf(w, TakenBack(w, e, s, c, v))));
  }

  lemma LoweringShrinks(w: World, e: Env, s: State, s': State, c: Criteria, v: uint32)
    requires Lowers(w, e, s, s', c, v)
    ensures s'.points == s.points && s'.completed.Keys <= s.completed.Keys
    ensures s.completed.Keys - s'.completed.Keys == TakenBack(w, e, s, c, v)
  {
  }

  /** An untimed meta criterion for which the player is eligible. */
  ghost predicate Credits(w: World, e: Env, d: Criteria) {
    d in w.completeList && d.requiredType.CompleteAchievement? && d.timeLimit == 0 && e.enabled && d.id in e.eligible
  }

  /** Such criteria have credit exactly for recorded achievements. */
  ghost predicate CreditsExact(w: World, e: Env, s: State) {
    forall d :: Credits(w, e, d) ==>
      (Counter(s.progress, d.id) > 0 <==> d.requiredType.linkedAchievement in s.completed)
  }

  /** Nor is meta credit taken back, so it stays exact just when no such criterion links to one of these. */
  lemma LoweringKeepsCreditsExactly(w: World, e: Env, s: State, s': State, c: Criteria, v: uint32)
    requires w.WellFormed() && Lowers(w, e, s, s', c, v) && CreditsExact(w, e, s)
    ensures CreditsExact(w, e, s') <==>
            forall d :: Credits(w, e, d) ==> d.requiredType.linkedAchievement !in TakenBack(w, e, s, c, v)
  {
    LoweringShrinks(w, e, s, s', c, v);
    hide TakenBack, WithdrawnIds;
    forall d | Credits(w, e, d) ensures Counter(s'.progress, d.id) == Counter(s.progress, d.id) {
      assert w.Knows(d);
    }
  }

  const EARNED: Achievement := Achievement(1, 0, 0, 10, false, false, false, false)
  const META: Achievement := Achievement(2, 0, 0, 5, false, false, false, false)
  const ONCE: Criteria := Criteria(7, 1, OtherType(1), 0, 0, false)
  const LINK: Criteria := Criteria(8, 2, CompleteAchievement(1), 0, 0, false)

  /** An achievement worth 10 points for one deed, and a meta achievement for having it. */
  const META_WORLD: World :=
    World(map[1 := EARNED, 2 := META], map[7 := ONCE, 8 := LINK], map[1 := [ONCE], 2 := [LINK]], map[], [LINK], [])

  /** Both are recorded. */
  function BothEarned(deed: uint32): State {
    State(map[7 := CriteriaProgress(0, deed, true, false), 8 := CriteriaProgress(0, 1, true, false)],
          map[1 := CompletedAchievementData(0, true), 2 := CompletedAchievementData(0, true)], map[], 15)
  }

  /** It happens: one SET to 0 takes the achievement back, and leaves its points and the meta credit. */
  lemma WithdrawalHappens(e: Env)
    requires e.enabled && LINK.id in e.eligible
    ensures var s, s' := BothEarned(1), BothEarned(0).(completed := map[2 := CompletedAchievementData(0, true)]);
            && Valid(META_WORLD, s) && PointsExact(META_WORLD, s) && CreditsExact(META_WORLD, e, s)
            && Lowers(META_WORLD, e, s, s', ONCE, 0)
            && !PointsExact(META_WORLD, s') && !CreditsExact(META_WORLD, e, s')
  {
    BothValid();
    BothExact(e);
    DeedUndone(e);
    var s, s' := BothEarned(1), BothEarned(0).(completed := map[2 := CompletedAchievementData(0, true)]);
    hide *;
    LoweringKeepsPointsExactly(META_WORLD, e, s, s', ONCE, 0);
    LoweringKeepsCreditsExactly(META_WORLD, e, s, s', ONCE, 0);
  }

  lemma BothValid()
    ensures META_WORLD.WellFormed() && Valid(META_WORLD, BothEarned(1))
  {
    assert META_WORLD.WellFormed();
    hide World.WellFormed;
  }

  lemma BothExact(e: Env)
    ensures PointsExact(META_WORLD, BothEarned(1)) && CreditsExact(META_WORLD, e, BothEarned(1))
  {
    var one: map<nat, int> := map[1 := 10];
    assert PointsOf(META_WORLD, BothEarned(1).completed.Keys) == one[2 := 5];
    SumUpdate(map[], 1, 10);
    SumUpdate(one, 2, 5);
  }

  lemma DeedUndone(e: Env)
    requires e.enabled && LINK.id in e.eligible
    ensures var s, s' := BothEarned(1), BothEarned(0).(completed := map[2 := CompletedAchievementData(0, true)]);
            && Lowers(META_WORLD, e, s, s', ONCE, 0) && TakenBack(META_WORLD, e, s, ONCE, 0) == {1}
            && Wrap(Sum(PointsOf(META_WORLD, {1}))) == 10
            && Credits(META_WORLD, e, LINK) && LINK.requiredType.CompleteAchievement?
            && LINK.requiredType.linkedAchievement == 1
  {
    var s, p := BothEarned(1), BothEarned(0).progress;
    assert Recorded(e, s, ONCE, 0).progress == p;
    assert !Done(META_WORLD, e.realmCompleted, p, EARNED) by {
      var cs := META_WORLD.CriteriaList(1);
      assert cs == [ONCE] && !CriteriaDone(e.realmCompleted, p, cs[0], EARNED);
    }
    hide Done;
    assert Withdrawn(META_WORLD, e, p, 1, [], 1);
    assert WithdrawnIds(META_WORLD, e, p, 1, []) == {1};
    var one: map<nat, int> := map[1 := 10];
    assert PointsOf(META_WORLD, {1}) == one;
    SumUpdate(map[], 1, 10);
  }

  lemma PointsSplit(w: World, ids: set<nat>, kept: set<nat>)
    requires kept <= ids
    ensures Sum(PointsOf(w, ids)) == Sum(PointsOf(w, kept)) + Sum(PointsOf(w, ids - kept))
  {
    var all, gone := PointsOf(w, ids), PointsOf(w, ids - kept);
    SumSplit(all, gone.Keys);
    assert all - gone.Keys == PointsOf(w, kept) && all - (all.Keys - gone.Keys) == gone;
  }

  lemma WrapSame(x: int, y: int)
    ensures Wrap(x + y) == Wrap(x) <==> Wrap(y) == 0
  {
  }

  lemma CallKeepsCredits(w: World, e: Env, s: State, s': State)
    requires w.WellFormed() && Call(w, e, s, s')
    ensures forall c :: !Uncredited(w, e, s, c) ==> !Uncredited(w, e, s', c)
    ensures forall c :: !Lagging(w, e, s, c) ==> !Lagging(w, e, s', c)
  {
    if Improves(w, e, s, s') {
      StaysCredited(w, e, s, s');
    } else if c, v :| Lowers(w, e, s, s', c, v) {
      LoweringKeepsCredits(w, e, s, s', c, v);
    }
  }

  lemma CallIsStep(w: World, e: Env, s: State, s': State)
    requires Call(w, e, s, s')
    ensures Step(w, e, s, s')
  {
  }

  lemma TimersKeepCredits(w: World, e: Env, s: State, s': State)
    requires w.WellFormed() && TimedOnly(w, s, s')
    ensures forall d :: Uncredited(w, e, s', d) ==> Uncredited(w, e, s, d)
    ensures forall d :: Lagging(w, e, s', d) ==> Lagging(w, e, s, d)
  {
  }

  lemma EmptySettled(w: World, e: Env)
    requires w.WellFormed()
    ensures Settled(w, e, NOTHING)
  {
    forall a | Regular(w, a)
      ensures !Done(w, {}, map[], a)
    {
      NothingDone({}, w.CriteriaList(a.TestId()), a);
    }
  }

  lemma {:induction false} NothingDone(realm: set<nat>, cs: seq<Criteria>, a: Achievement)
    ensures DoneCount(realm, map[], cs, a) == 0
  {
    if cs != [] {
      NothingDone(realm, cs[..|cs| - 1], a);
    }
  }

  const NOTHING: State := State(map[], map[], map[], 0)

  /** Calls from outside, one after the other, starting with an empty manager. */
  ghost predicate IsRun(w: World, es: seq<Env>, run: seq<State>) {
    && |run| == |es| + 1 && run[0] == NOTHING
    && forall k :: 0 <= k < |es| ==> Step(w, es[k], run[k], run[k + 1])
  }

  lemma ShorterRun(w: World, es: seq<Env>, run: seq<State>)
    requires IsRun(w, es, run) && es != []
    ensures IsRun(w, es[..|es| - 1], run[..|es|])
    ensures Step(w, es[|es| - 1], run[|es| - 1], run[|es|])
  {
    assert Step(w, es[|es| - 1], run[|es| - 1], run[|es| - 1 + 1]);
  }

  lemma LongerRun(w: World, es: seq<Env>, run: seq<State>, e: Env, s: State)
    requires IsRun(w, es, run) && Step(w, e, run[|es|], s)
    ensures IsRun(w, es + [e], run + [s])
  {
    hide Step;
    forall k | 0 <= k < |es + [e]| ensures Step(w, (es + [e])[k], (run + [s])[k], (run + [s])[k + 1]) {
      if k < |es| {
        assert Step(w, es[k], run[k], run[k + 1]);
      }
    }
  }

  lemma StepKeepsClosed(w: World, e: Env, s: State, s': State)
    requires w.WellFormed() && Closed(w, s) && Step(w, e, s, s')
    ensures Closed(w, s')
  {
    if Improves(w, e, s, s') {
      ImprovingKeepsClosed(w, e, s, s');
    } else if c, v :| Lowers(w, e, s, s', c, v) {
      LoweringKeepsClosed(w, e, s, s', c, v);
    } else {
      TimersKeepClosed(w, s, s');
    }
  }

  /** After every run of calls, whatever each of them saw of the server, a regular achievement is recorded
      exactly when it passes its test. */
  lemma {:induction false} RunCloses(w: World, es: seq<Env>, run: seq<State>)
    requires w.WellFormed() && IsRun(w, es, run)
    ensures Closed(w, run[|es|])
  {
    if es == [] {
      EmptySettled(w, Env(true, {}, {}, 0));
    } else {
      ShorterRun(w, es, run);
      hide IsRun, Step, Closed;
      RunCloses(w, es[..|es| - 1], run[..|es|]);
      StepKeepsClosed(w, es[|es| - 1], run[|es| - 1], run[|es|]);
    }
  }

  /** Between two calls everything may change except whether gains are allowed and which meta and points
      criteria the player is eligible for. */
  ghost predicate SameRules(w: World, e: Env, e': Env) {
    && e.enabled == e'.enabled
    && forall c :: c in w.completeList || c in w.pointsList ==> (c.id in e.eligible <==> c.id in e'.eligible)
  }

  /** From an empty manager, every run of calls, however their recursion went, ends with: a regular
      achievement is recorded exactly when it passes its test, every eligible meta criterion whose
      linked achievement is recorded has credit, and every eligible points criterion is up to date. */
  lemma {:induction false} RunSettles(w: World, es: seq<Env>, run: seq<State>)
    requires w.WellFormed() && IsRun(w, es, run)
    requires forall k :: 0 <= k < |es| ==> SameRules(w, es[0], es[k])
    ensures es != [] ==> Settled(w, es[0], run[|es|])
  {
    var n := |es|;
    if n > 0 {
      var e := es[n - 1];
      ShorterRun(w, es, run);
      if n == 1 {
        EmptySettled(w, e);
      } else {
        RunSettles(w, es[..n - 1], run[..n]);
        RulesDecide(w, es[0], e, run[n - 1]);
      }
      StepKeepsSettled(w, e, run[n - 1], run[n]);
      RulesDecide(w, e, es[0], run[n]);
    }
  }

  /** A run without lowered counters and timers from an empty manager: meta credit is given exactly for
      recorded links, and the points are the points of the recorded achievements. */
  lemma {:induction false} GainingRun(w: World, es: seq<Env>, run: seq<State>)
    requires w.WellFormed() && IsRun(w, es, run)
    requires forall k :: 0 <= k < |es| ==> Improves(w, es[k], run[k], run[k + 1])
    requires forall k :: 0 <= k < |es| ==> SameRules(w, es[0], es[k])
    ensures SoundCredits(w, run[0], run[|es|]) && PointsExact(w, run[|es|])
    ensures es != [] ==> CreditsExact(w, es[0], run[|es|])
  {
    var n := |es|;
    if n == 0 {
      assert PointsOf(w, {}) == map[];
    } else {
      ShorterRun(w, es, run);
      GainingRun(w, es[..n - 1], run[..n]);
      assert SoundCredits(w, run[n - 1], run[n]) by {
        assert Improves(w, es[n - 1], run[n - 1], run[n - 1 + 1]);
      }
      RunSettles(w, es, run);
      forall c | Credits(w, es[0], c)
        ensures Counter(run[n].progress, c.id) > 0 <==> c.requiredType.linkedAchievement in run[n].completed
      {
        assert !Uncredited(w, es[0], run[n], c);
        assert w.criteria[c.id] == c;
      }
    }
  }

  /** Such a run misses nothing: every achievement that passes its test is recorded, SUMM and timed ones
      included, as long as it is no realm first and does not borrow from a pure counter. */
  lemma {:induction false} GainingRunMissesNothing(w: World, es: seq<Env>, run: seq<State>, b: Achievement)
    requires w.WellFormed() && IsRun(w, es, run)
    requires forall k :: 0 <= k < |es| ==> Improves(w, es[k], run[k], run[k + 1])
    requires w.Has(b) && !b.realmFirst && !w.PureCounter(b.TestId())
    ensures Done(w, {}, run[|es|].progress, b) ==> b.id in run[|es|].completed
  {
    if es == [] {
      NothingPasses(w, b);
    } else {
      var n := |es|;
      ShorterRun(w, es, run);
      GainingRunMissesNothing(w, es[..n - 1], run[..n], b);
      assert Improves(w, es[n - 1], run[n - 1], run[n - 1 + 1]);
      RealmIrrelevant(w, es[n - 1].realmCompleted, run[n].progress, b);
      RealmIrrelevant(w, es[n - 1].realmCompleted, run[n - 1].progress, b);
      assert Missed(w, es[n - 1], run[n], b) ==> Missed(w, es[n - 1], run[n - 1], b);
    }
  }

  lemma NothingPasses(w: World, b: Achievement)
    ensures !Done(w, {}, map[], b)
  {
    NothingDone({}, w.CriteriaList(b.TestId()), b);
  }

  lemma RulesDecide(w: World, e: Env, e': Env, s: State)
    requires SameRules(w, e, e') && Settled(w, e, s)
    ensures Settled(w, e', s)
  {
    forall c ensures !Uncredited(w, e', s, c) && !Lagging(w, e', s, c) {
      assert !Uncredited(w, e, s, c) && !Lagging(w, e, s, c);
    }
  }

  // ---------------------------------------------------------------- borrowing from a pure counter

  /** The achievement is tested on the criteria of a pure counter, and these can make it pass. */
  ghost predicate Borrows(w: World, b: Achievement) {
    && w.PureCounter(b.TestId())
    && w.CriteriaList(b.TestId()) != [] && b.count <= |w.CriteriaList(b.TestId())|
  }

  /** At the end of the run the achievement is recorded exactly when it passes its test. */
  ghost predicate FollowsTest(w: World, b: Achievement, es: seq<Env>, run: seq<State>) {
    IsRun(w, es, run) ==> (b.id in run[|es|].completed <==> Done(w, {}, run[|es|].progress, b))
  }

  /** Storing progress for a pure counter ends the call, so the new record is the whole step. */
  lemma CounterStep(w: World, e: Env, s: State, c: Criteria, v: uint32)
    requires w.WellFormed() && w.Knows(c) && w.PureCounter(c.referredAchievement)
    requires c.requiredType.OtherType? && Counter(s.progress, c.id) < v
    ensures Step(w, e, s, Recorded(e, s, c, v))
  {
    var s1 := Recorded(e, s, c, v);
    ImprovesReflexive(w, e, s1);
    RaiseSettled(w, e, s, s1, s1, c, w.achievements[c.referredAchievement], v);
  }

  ghost predicate Full(s: State, cs: seq<Criteria>) {
    forall c :: c in cs ==> c.id in s.progress && s.progress[c.id].counter == UINT32_LIMIT - 1
  }

  /** Calls that drive the criteria of a pure counter to the top, and record nothing. */
  lemma {:induction false} FillingRun(w: World, e: Env, cs: seq<Criteria>) returns (es: seq<Env>, run: seq<State>)
    requires w.WellFormed()
    requires forall c :: c in cs ==> w.Knows(c) && w.PureCounter(c.referredAchievement) && c.requiredType.OtherType?
    ensures IsRun(w, es, run) && Full(run[|es|], cs) && run[|es|].completed == map[]
  {
    if cs == [] {
      es, run := [], [NOTHING];
    } else {
      var front, c := cs[..|cs| - 1], cs[|cs| - 1];
      es, run := FillingRun(w, e, front);
      var s := run[|es|];
      FullNext(e, s, cs);
      hide IsRun, Step, Full, World.WellFormed;
      if Counter(s.progress, c.id) < UINT32_LIMIT - 1 {
        var next := Recorded(e, s, c, UINT32_LIMIT - 1);
        CounterStep(w, e, s, c, UINT32_LIMIT - 1);
        RunLength(w, es, run);
        LongerRun(w, es, run, e, next);
        es, run := es + [e], run + [next];
      }
    }
  }

  lemma RunLength(w: World, es: seq<Env>, run: seq<State>)
    requires IsRun(w, es, run)
    ensures |run| == |es| + 1
  {
  }

  lemma FullNext(e: Env, s: State, cs: seq<Criteria>)
    requires cs != [] && Full(s, cs[..|cs| - 1])
    ensures var c := cs[|cs| - 1];
            && (Counter(s.progress, c.id) == UINT32_LIMIT - 1 ==> Full(s, cs))
            && Full(Recorded(e, s, c, UINT32_LIMIT - 1), cs)
  {
    assert forall d :: d in cs ==> d in cs[..|cs| - 1] || d == cs[|cs| - 1];
  }

  lemma {:induction false} DoneCountFull(s: State, cs: seq<Criteria>, b: Achievement)
    requires Full(s, cs) && !b.counter
    ensures DoneCount({}, s.progress, cs, b) == |cs|
  {
    if cs != [] {
      DoneCountFull(s, cs[..|cs| - 1], b);
      assert cs[|cs| - 1] in cs;
    }
  }

  lemma {:induction false} DoneCountBound(realm: set<nat>, p: ProgressMap, cs: seq<Criteria>, b: Achievement)
    ensures DoneCount(realm, p, cs, b) <= |cs|
  {
    if cs != [] {
      DoneCountBound(realm, p, cs[..|cs| - 1], b);
    }
  }

  /** What can never pass is never recorded. */
  lemma {:induction false} NeverRecorded(w: World, es: seq<Env>, run: seq<State>, b: Achievement)
    requires w.WellFormed() && IsRun(w, es, run)
    requires w.Has(b) && (forall realm, p :: !Done(w, realm, p, b)) && (forall p :: !Wraps(w, p, b))
    ensures b.id !in run[|es|].completed
  {
    if es != [] {
      var n := |es|;
      ShorterRun(w, es, run);
      NeverRecorded(w, es[..n - 1], run[..n], b);
      hide Done, IsRun;
      assert Step(w, es[n - 1], run[n - 1], run[n]);
    }
  }

  /** The exact condition: for an untimed achievement that is neither a counter, a sum nor a realm first, the
      record follows the test over all runs if and only if it does not borrow from a pure counter. */
  lemma RecordFollowsTestExactly(w: World, b: Achievement)
    requires w.WellFormed() && w.Has(b) && !b.counter && !b.summ && !b.realmFirst
    requires forall c :: c in w.CriteriaList(b.TestId()) ==> c.timeLimit == 0
    requires w.PureCounter(b.TestId()) ==> forall c :: c in w.CriteriaList(b.TestId()) ==> c.requiredType.OtherType?
    ensures (forall es, run :: FollowsTest(w, b, es, run)) <==> !Borrows(w, b)
  {
    var cs := w.CriteriaList(b.TestId());
    if Borrows(w, b) {
      forall c | c in cs ensures w.Knows(c) && w.PureCounter(c.referredAchievement) {
      }
      var es, run := FillingRun(w, Env(true, {}, {}, 0), cs);
      DoneCountFull(run[|es|], cs, b);
      assert Done(w, {}, run[|es|].progress, b);
      assert !FollowsTest(w, b, es, run);
    } else {
      forall es, run ensures FollowsTest(w, b, es, run) {
        if IsRun(w, es, run) {
          if w.PureCounter(b.TestId()) {
            forall realm, p ensures !Done(w, realm, p, b) {
              DoneCountBound(realm, p, cs, b);
            }
            NeverRecorded(w, es, run, b);
          } else {
            RunCloses(w, es, run);
            assert Regular(w, b);
          }
        }
      }
    }
  }

  lemma OneDone(realm: set<nat>, p: ProgressMap, c: Criteria, a: Achievement)
    requires CriteriaDone(realm, p, c, a)
    ensures DoneCount(realm, p, [c], a) == 1
  {
    assert DoneCount(realm, p, [c], a) == DoneCount(realm, p, [c][..0], a) + 1;
  }

  /** The smallest case: one criterion of a pure counter, borrowed once, and one call that moves it. */
  lemma BorrowedCounterIsMissed(e: Env)
    ensures exists w, s, c: Criteria, b ::
              && Valid(w, s) && Settled(w, e, s) && Borrows(w, b)
              && w.Has(b) && b.TestId() == c.referredAchievement
              && !Done(w, e.realmCompleted, s.progress, b)
              && Step(w, e, s, Recorded(e, s, c, 1))
              && Done(w, e.realmCompleted, Recorded(e, s, c, 1).progress, b)
              && b.id !in Recorded(e, s, c, 1).completed
  {
    var counter := Achievement(1, 0, 0, 0, true, false, false, false);
    var b := Achievement(2, 1, 1, 10, false, false, false, false);
    var c := Criteria(7, 1, OtherType(1), 0, 0, false);
    var w := World(map[1 := counter, 2 := b], map[7 := c], map[1 := [c]], map[1 := [b]], [], []);
    EmptySettled(w, e);
    NothingDone(e.realmCompleted, [c], b);
    CounterStep(w, e, NOTHING, c, 1);
    hide Step, Settled;
    var p := Recorded(e, NOTHING, c, 1).progress;
    OneDone(e.realmCompleted, p, c, b);
    hide CriteriaDone, DoneCount;
    assert Done(w, e.realmCompleted, p, b);
    assert Valid(w, NOTHING);
  }

  // ---------------------------------------------------------------- timers and loading

  ghost predicate Expired(e: Env, s: State, i: nat) {
    i in s.failTimes && s.failTimes[i] <= e.now
  }

  /** The timer ran out before the criterion was done. */
  ghost predicate Fails(w: World, e: Env, s: State, i: nat) {
    && Expired(e, s, i)
    && i in w.criteria && w.criteria[i].referredAchievement in w.achievements
    && !CriteriaDone(e.realmCompleted, s.progress, w.criteria[i], w.achievements[w.criteria[i].referredAchievement])
  }

  ghost function ExpiredAmong(e: Env, s: State, ids: set<nat>): set<nat> {
    set i | i in ids && Expired(e, s, i)
  }

  ghost function FailedAmong(w: World, e: Env, s: State, ids: set<nat>): set<nat> {
    set i | i in ids && Fails(w, e, s, i)
  }

  /** What is decided about one timer does not depend on the timers swept before it. */
  lemma SweepNext(w: World, e: Env, s: State, s': State, ids: set<nat>, i: nat)
    requires w.WellFormed()
    requires i in s.failTimes && i in s'.failTimes && s.failTimes[i] == s'.failTimes[i]
    requires i in s.progress && i in s'.progress && s.progress[i] == s'.progress[i]
    ensures ExpiredAmong(e, s, ids + {i}) == ExpiredAmong(e, s, ids) + if Expired(e, s', i) then {i} else {}
    ensures FailedAmong(w, e, s, ids + {i}) == FailedAmong(w, e, s, ids) + if Fails(w, e, s', i) then {i} else {}
  {
  }

  lemma RemoveTwice<V>(m: map<nat, V>, a: set<nat>, b: set<nat>)
    ensures m - a - b == m - (a + b)
  {
  }

  lemma SweepStart(w: World, e: Env, s: State)
    ensures ExpiredAmong(e, s, {}) == {} && FailedAmong(w, e, s, {}) == {}
    ensures forall ids :: ExpiredAmong(e, s, ids) <= ids && FailedAmong(w, e, s, ids) <= ids
  {
  }

  lemma TimersKnown(w: World, s: State)
    requires Valid(w, s)
    ensures w.WellFormed()
    ensures forall i :: i in w.criteria ==> w.criteria[i].id == i && w.criteria[i].referredAchievement in w.achievements
    ensures forall i :: i in s.failTimes ==> i in s.progress && i in w.criteria
  {
  }

  lemma SweepIsValidStep(w: World, e: Env, s: State, s': State)
    requires Valid(w, s)
    requires s'.failTimes == s.failTimes - ExpiredAmong(e, s, s.failTimes.Keys)
    requires s'.progress == s.progress - FailedAmong(w, e, s, s.failTimes.Keys)
    requires s'.completed == s.completed && s'.points == s.points
    ensures Valid(w, s') && Step(w, e, s, s') && (Capped(w, s) ==> Capped(w, s'))
  {
    assert TimedOnly(w, s, s');
  }

  /** What a sweep leaves: the timers that have not run out, and all progress but that of unfinished criteria whose
      timers have. */
  ghost predicate SweptAs(w: World, e: Env, s: State, s': State)
    requires forall i :: i in s.failTimes ==> i in w.criteria && w.criteria[i].referredAchievement in w.achievements
  {
    && (forall i :: i in s'.failTimes <==> i in s.failTimes && s.failTimes[i] > e.now)
    && (forall i :: i in s'.failTimes ==> s'.failTimes[i] == s.failTimes[i])
    && (forall i :: i in s'.progress <==>
          && i in s.progress
          && !(i in s.failTimes && s.failTimes[i] <= e.now &&
               !CriteriaDone(e.realmCompleted, s.progress, w.criteria[i],
                             w.achievements[w.criteria[i].referredAchievement])))
    && (forall i :: i in s'.progress ==> s'.progress[i] == s.progress[i])
    && s'.completed == s.completed && s'.points == s.points
  }

  lemma SweptExactly(w: World, e: Env, s: State, s': State)
    requires forall i :: i in s.failTimes ==> i in w.criteria && w.criteria[i].referredAchievement in w.achievements
    requires s'.failTimes == s.failTimes - ExpiredAmong(e, s, s.failTimes.Keys)
    requires s'.progress == s.progress - FailedAmong(w, e, s, s.failTimes.Keys)
    requires s'.completed == s.completed && s'.points == s.points
    ensures SweptAs(w, e, s, s')
  {
    hide CriteriaDone;
  }

  /** One selected criterion gets a fresh record at zero and a running timer. */
  function TimerStarted(s: State, c: Criteria, date: int): State {
    var previous := if c.id in s.progress then s.progress[c.id] else CriteriaProgress(0, 0, false, false);
    s.(progress := s.progress[c.id := previous.(date := date, counter := 0, changed := true,
                                                timedCriteriaFailed := false)],
       failTimes := s.failTimes[c.id := date + c.timeLimit])
  }

  predicate StartsTimer(w: World, e: Env, s: State, c: Criteria, matching: set<nat>, startTime: int) {
    && c.referredAchievement in w.achievements
    && c.id in matching
    && c.ExplicitlyStartedTimed()
    && c.id in e.eligible
    && !CriteriaDone(e.realmCompleted, s.progress, c, w.achievements[c.referredAchievement])
    && !(startTime != 0 && startTime + c.timeLimit < e.now)
  }

  function OneTimerStarted(w: World, e: Env, s: State, c: Criteria, matching: set<nat>, startTime: int): State {
    if StartsTimer(w, e, s, c, matching, startTime)
    then TimerStarted(s, c, if startTime != 0 then startTime else e.now)
    else s
  }

  function AllTimersStarted(w: World, e: Env, s: State, cs: seq<Criteria>, matching: set<nat>, startTime: int): State {
    if cs == [] then s
    else
      var before := AllTimersStarted(w, e, s, cs[..|cs| - 1], matching, startTime);
      OneTimerStarted(w, e, before, cs[|cs| - 1], matching, startTime)
  }

  /** What starting a timer makes of a criterion: a record at zero and a timer that runs from the start or from now,
      or nothing. */
  ghost predicate StartedAs(w: World, e: Env, s: State, s': State, c: Criteria, matching: set<nat>, startTime: int)
    requires c.referredAchievement in w.achievements
  {
    var date := if startTime == 0 then e.now else startTime;
    if c.id in matching && c.id in e.eligible && c.timeLimit != 0 && c.manualStart
       && !CriteriaDone(e.realmCompleted, s.progress, c, w.achievements[c.referredAchievement])
       && (startTime == 0 || e.now <= startTime + c.timeLimit)
    then
      && c.id in s'.progress && s'.progress[c.id] == CriteriaProgress(date, 0, true, false)
      && c.id in s'.failTimes && s'.failTimes[c.id] == date + c.timeLimit
    else SameOf(s, s', c.id)
  }

  /** Record and timer of one criterion are the same. */
  ghost predicate SameOf(s: State, s': State, i: nat) {
    && (i in s'.progress <==> i in s.progress) && (i in s.progress ==> s'.progress[i] == s.progress[i])
    && (i in s'.failTimes <==> i in s.failTimes) && (i in s.failTimes ==> s'.failTimes[i] == s.failTimes[i])
  }

  lemma StartedOne(w: World, e: Env, s: State, t: State, c: Criteria, matching: set<nat>, startTime: int)
    requires c.referredAchievement in w.achievements && SameOf(s, t, c.id)
    ensures StartedAs(w, e, s, OneTimerStarted(w, e, t, c, matching, startTime), c, matching, startTime)
  {
  }

  lemma StartedOther(w: World, e: Env, s: State, c: Criteria, matching: set<nat>, startTime: int, i: nat)
    requires i != c.id
    ensures SameOf(s, OneTimerStarted(w, e, s, c, matching, startTime), i)
  {
    hide CriteriaDone;
  }

  lemma StartedStays(w: World, e: Env, s: State, t: State, u: State, c: Criteria, matching: set<nat>, startTime: int)
    requires c.referredAchievement in w.achievements
    requires StartedAs(w, e, s, t, c, matching, startTime) && SameOf(t, u, c.id)
    ensures StartedAs(w, e, s, u, c, matching, startTime)
  {
    hide CriteriaDone;
  }

  /** In a list of different criteria each is started by itself, and no other is touched. */
  lemma {:induction false} StartedExactly(w: World, e: Env, s: State, cs: seq<Criteria>, matching: set<nat>,
                                          startTime: int)
    requires forall k :: 0 <= k < |cs| ==> cs[k].referredAchievement in w.achievements
    requires forall j, k :: 0 <= j < k < |cs| ==> cs[j].id != cs[k].id
    ensures var t := AllTimersStarted(w, e, s, cs, matching, startTime);
            && (forall k :: 0 <= k < |cs| ==> StartedAs(w, e, s, t, cs[k], matching, startTime))
            && (forall i :: (forall k :: 0 <= k < |cs| ==> cs[k].id != i) ==> SameOf(s, t, i))
  {
    if cs != [] {
      var n := |cs| - 1;
      var t := AllTimersStarted(w, e, s, cs[..n], matching, startTime);
      var u := OneTimerStarted(w, e, t, cs[n], matching, startTime);
      StartedExactly(w, e, s, cs[..n], matching, startTime);
      hide OneTimerStarted, StartedAs;
      assert forall k :: 0 <= k < n ==> cs[..n][k] == cs[k];
      StartedOne(w, e, s, t, cs[n], matching, startTime);
      forall k | 0 <= k < n ensures StartedAs(w, e, s, u, cs[k], matching, startTime) {
        StartedOther(w, e, t, cs[n], matching, startTime, cs[k].id);
        StartedStays(w, e, s, t, u, cs[k], matching, startTime);
      }
      forall i | forall k :: 0 <= k < |cs| ==> cs[k].id != i ensures SameOf(s, u, i) {
        assert forall k :: 0 <= k < n ==> cs[..n][k].id != i;
        assert SameOf(s, t, i) && cs[n].id != i;
        StartedOther(w, e, t, cs[n], matching, startTime, i);
      }
    }
  }

  lemma TimersStartedNext(w: World, e: Env, s: State, cs: seq<Criteria>, i: nat, matching: set<nat>, startTime: int)
    requires i < |cs|
    ensures AllTimersStarted(w, e, s, cs[..i + 1], matching, startTime) ==
              OneTimerStarted(w, e, AllTimersStarted(w, e, s, cs[..i], matching, startTime), cs[i], matching, startTime)
  {
    assert cs[..i + 1][..i] == cs[..i];
  }

  /** Starting timers backs every one of them with a record and leaves untimed criteria alone. */
  lemma {:induction false} StartIsValidStep(w: World, e: Env, s: State, cs: seq<Criteria>, matching: set<nat>,
                                            startTime: int)
    requires Valid(w, s)
    requires forall k :: 0 <= k < |cs| ==> w.Knows(cs[k])
    ensures Valid(w, AllTimersStarted(w, e, s, cs, matching, startTime))
    ensures TimedOnly(w, s, AllTimersStarted(w, e, s, cs, matching, startTime))
  {
    if cs != [] {
      StartIsValidStep(w, e, s, cs[..|cs| - 1], matching, startTime);
    }
  }

  lemma {:induction false} StartKeepsCapped(w: World, e: Env, s: State, cs: seq<Criteria>, matching: set<nat>,
                                            startTime: int)
    ensures Capped(w, s) ==> Capped(w, AllTimersStarted(w, e, s, cs, matching, startTime))
  {
    if cs != [] {
      StartKeepsCapped(w, e, s, cs[..|cs| - 1], matching, startTime);
    }
  }

  lemma LoadedValid(w: World, s: State, s': State, c: Criteria, progress: CriteriaProgress)
    requires Valid(w, s) && c.id in w.criteria && w.criteria[c.id] == c
    requires c.referredAchievement in w.achievements ==>
               var max := MaxCounter(c, w.achievements[c.referredAchievement]);
               max != 0 ==> progress.counter <= max
    requires s'.progress == s.progress[c.id := progress] && s'.completed == s.completed
    requires s'.failTimes == s.failTimes || (c.timeLimit != 0 && s'.failTimes.Keys == s.failTimes.Keys + {c.id})
    ensures Valid(w, s')
  {
  }

  datatype ProgressRow = ProgressRow(criteria: nat, counter: uint32, date: int)

  /** A row of an unknown criterion is dropped.  Any other becomes a record with its date and its counter, cut to a
      nonzero maximum; a timed criterion that is not done by the stored counter gets its timer back, and the mark
      of failure if that has run out. */
  ghost function LoadedRow(w: World, e: Env, s: State, row: ProgressRow): State
    requires w.WellFormed()
  {
    if row.criteria !in w.criteria then s
    else
      var c := w.criteria[row.criteria];
      var a := w.achievements[c.referredAchievement];
      var raw := s.progress[c.id := CriteriaProgress(row.date, row.counter, false, false)];
      var timed := c.timeLimit != 0 && !CriteriaDone(e.realmCompleted, raw, c, a);
      var failed := timed && row.date + c.timeLimit <= e.now;
      var max := MaxCounter(c, a);
      var cut := max != 0 && row.counter > max;
      s.(progress := s.progress[c.id := CriteriaProgress(row.date, if cut then max else row.counter, cut, failed)],
         failTimes := if timed then s.failTimes[c.id := row.date + c.timeLimit] else s.failTimes)
  }

  lemma LoadedRowValid(w: World, e: Env, s: State, row: ProgressRow)
    requires Valid(w, s) && w.WellFormed()
    ensures Valid(w, LoadedRow(w, e, s, row))
  {
    if row.criteria in w.criteria {
      TimersKnown(w, s);
      var c, s' := w.criteria[row.criteria], LoadedRow(w, e, s, row);
      hide Valid, World.WellFormed, CriteriaDone;
      LoadedValid(w, s, s', c, s'.progress[c.id]);
    }
  }

  ghost function LoadedRows(w: World, e: Env, s: State, rows: seq<ProgressRow>): State
    requires w.WellFormed()
  {
    if rows == [] then s else LoadedRow(w, e, LoadedRows(w, e, s, rows[..|rows| - 1]), rows[|rows| - 1])
  }

  lemma LoadedRowsNext(w: World, e: Env, s: State, rows: seq<ProgressRow>, k: nat)
    requires w.WellFormed() && k < |rows|
    ensures LoadedRows(w, e, s, rows[..k + 1]) == LoadedRow(w, e, LoadedRows(w, e, s, rows[..k]), rows[k])
  {
    assert rows[..k + 1][..k] == rows[..k];
  }

  /** What is in memory of a stored row: its date, its counter up to the maximum, a mark that it changed if it was
      cut, and for a timed criterion that the stored counter does not fill, the timer and whether it has run out. */
  ghost predicate LoadedFrom(w: World, e: Env, s: State, row: ProgressRow)
    requires w.WellFormed() && row.criteria in w.criteria
  {
    var c := w.criteria[row.criteria];
    var a := w.achievements[c.referredAchievement];
    var max := MaxCounter(c, a);
    var full := !a.counter && !(a.realmFirst && a.id in e.realmCompleted) &&
                (row.counter >= max || (a.reqCount && row.counter > 0));
    && row.criteria in s.progress
    && s.progress[row.criteria].date == row.date
    && s.progress[row.criteria].counter == (if max == 0 then row.counter else Min(row.counter, max))
    && (s.progress[row.criteria].changed <==> s.progress[row.criteria].counter < row.counter)
    && (s.progress[row.criteria].timedCriteriaFailed <==> c.timeLimit != 0 && !full && row.date + c.timeLimit <= e.now)
    && (c.timeLimit != 0 && !full ==>
          row.criteria in s.failTimes && s.failTimes[row.criteria] == row.date + c.timeLimit)
  }

  lemma LoadedOne(w: World, e: Env, s: State, row: ProgressRow)
    requires w.WellFormed() && row.criteria in w.criteria
    ensures LoadedFrom(w, e, LoadedRow(w, e, s, row), row)
  {
  }

  lemma LoadedOther(w: World, e: Env, s: State, row: ProgressRow, i: nat)
    requires w.WellFormed() && i != row.criteria
    ensures var t := LoadedRow(w, e, s, row);
            && (i in t.progress <==> i in s.progress) && (i in s.progress ==> t.progress[i] == s.progress[i])
            && (i in t.failTimes <==> i in s.failTimes) && (i in s.failTimes ==> t.failTimes[i] == s.failTimes[i])
  {
  }

  lemma LoadedStays(w: World, e: Env, s: State, t: State, row: ProgressRow)
    requires w.WellFormed() && row.criteria in w.criteria && LoadedFrom(w, e, s, row)
    requires row.criteria in s.progress ==>
               row.criteria in t.progress && t.progress[row.criteria] == s.progress[row.criteria]
    requires row.criteria in s.failTimes ==>
               row.criteria in t.failTimes && t.failTimes[row.criteria] == s.failTimes[row.criteria]
    ensures LoadedFrom(w, e, t, row)
  {
  }

  /** Rows of different criteria are all in memory after a load. */
  lemma {:induction false} LoadedExactly(w: World, e: Env, s: State, rows: seq<ProgressRow>)
    requires w.WellFormed()
    requires forall j, k :: 0 <= j < k < |rows| ==> rows[j].criteria != rows[k].criteria
    ensures forall k :: 0 <= k < |rows| && rows[k].criteria in w.criteria ==>
              LoadedFrom(w, e, LoadedRows(w, e, s, rows), rows[k])
  {
    if rows != [] {
      var n := |rows| - 1;
      var t := LoadedRows(w, e, s, rows[..n]);
      LoadedExactly(w, e, s, rows[..n]);
      hide LoadedRow, LoadedFrom;
      forall k | 0 <= k < |rows| && rows[k].criteria in w.criteria
        ensures LoadedFrom(w, e, LoadedRow(w, e, t, rows[n]), rows[k])
      {
        if k == n {
          LoadedOne(w, e, t, rows[n]);
        } else {
          assert rows[..n][k] == rows[k];
          LoadedOther(w, e, t, rows[n], rows[k].criteria);
          LoadedStays(w, e, t, LoadedRow(w, e, t, rows[n]), rows[k]);
        }
      }
    }
  }

  /** Accumulating a list of changes one call at a time. */
  function Accumulated(max: uint32, counter: uint32, changes: seq<uint32>): uint32 {
    if changes == [] then counter
    else
      var before := Accumulated(max, counter, changes[..|changes| - 1]);
      var last := changes[|changes| - 1];
      NextCounter(max, before, if last > max then max else last, ProgressAccumulate)
  }

  function Total(changes: seq<uint32>): nat {
    if changes == [] then 0 else Total(changes[..|changes| - 1]) + changes[|changes| - 1]
  }

  /** Any run of 32-bit accumulates is the bounded sum of the changes: no wrap-around shows. */
  lemma {:induction false} AccumulateRun(max: uint32, counter: uint32, changes: seq<uint32>)
    requires counter <= max
    ensures Accumulated(max, counter, changes) == Min(max, counter + Total(changes))
  {
    if changes != [] {
      AccumulateRun(max, counter, changes[..|changes| - 1]);
      var last := changes[|changes| - 1];
      var before := Accumulated(max, counter, changes[..|changes| - 1]);
      AccumulateIsBoundedSum(max, before, if last > max then max else last);
    }
  }

  class AchievementMgr {
    const w: World
    var criteriaProgress: ProgressMap
    var completedAchievements: map<nat, CompletedAchievementData>
    var criteriaFailTimes: map<nat, int>
    var achievementPoints: uint32

    constructor (w: World)
      requires w.WellFormed()
      ensures this.w == w && S() == NOTHING
      ensures Valid(w, S())
    {
      this.w := w;
      criteriaProgress, completedAchievements, criteriaFailTimes, achievementPoints := map[], map[], map[], 0;
    }

    ghost function S(): (s: State)
      reads this
      ensures s.progress == criteriaProgress && s.completed == completedAchievements
      ensures s.failTimes == criteriaFailTimes && s.points == achievementPoints
    {
      State(criteriaProgress, completedAchievements, criteriaFailTimes, achievementPoints)
    }

    method IsCompletedCriteria(e: Env, c: Criteria, a: Achievement) returns (b: bool)
      ensures b == CriteriaDone(e.realmCompleted, criteriaProgress, c, a)
    {
      if a.counter {
        return false;
      }
      if a.realmFirst && a.id in e.realmCompleted {
        return false;
      }
      if c.id !in criteriaProgress {
        return false;
      }
      var progress := criteriaProgress[c.id];
      return progress.counter >= MaxCounter(c, a) || (a.reqCount && progress.counter != 0);
    }

    /** First loop of the completion test: the running 32-bit sum of a SUMM achievement. */
    method IsSumReached(cs: seq<Criteria>) returns (b: bool)
      ensures b == SumReached(criteriaProgress, cs)
    {
      var count: uint32 := 0;
      assert Wrap(CounterSum(criteriaProgress, cs[..0])) == 0;
      hide CounterSum, Wrap;
      for i := 0 to |cs|
        invariant count == Wrap(CounterSum(criteriaProgress, cs[..i]))
        invariant forall k :: 0 <= k < i && cs[k].id in criteriaProgress ==>
                    Wrap(CounterSum(criteriaProgress, cs[..k + 1])) < cs[k].rawCount
      {
        SumNext(criteriaProgress, cs, i);
        if cs[i].id in criteriaProgress {
          WrapAdd(CounterSum(criteriaProgress, cs[..i]), criteriaProgress[cs[i].id].counter);
          count := Wrap(count + criteriaProgress[cs[i].id].counter);
          if count >= cs[i].rawCount {
            return true;
          }
        }
      }
      return false;
    }

    /** Second loop of the completion test: enough criteria done, or all of them. */
    method AreEnoughDone(e: Env, cs: seq<Criteria>, a: Achievement) returns (b: bool)
      ensures b == if a.count > 0 then DoneCount(e.realmCompleted, criteriaProgress, cs, a) >= a.count
                   else forall k :: 0 <= k < |cs| ==> CriteriaDone(e.realmCompleted, criteriaProgress, cs[k], a)
    {
      hide CriteriaDone;
      var count := 0;
      var completedAll := true;
      for i := 0 to |cs|
        invariant count == DoneCount(e.realmCompleted, criteriaProgress, cs[..i], a)
        invariant completedAll <==>
                    forall k :: 0 <= k < i ==> CriteriaDone(e.realmCompleted, criteriaProgress, cs[k], a)
        invariant a.count > 0 ==> count < a.count
      {
        assert cs[..i + 1][..i] == cs[..i];
        var completed := IsCompletedCriteria(e, cs[i], a);
        if completed {
          count := count + 1;
        } else {
          completedAll := false;
        }
        if a.count > 0 && a.count <= count {
          DoneCountPrefix(e.realmCompleted, criteriaProgress, cs, i + 1, a);
          return true;
        }
      }
      assert cs[..|cs|] == cs;
      return completedAll && a.count == 0;
    }

    method IsCompletedAchievement(e: Env, a: Achievement) returns (b: bool)
      requires a.TestId() in w.criteriaOf ==> w.criteriaOf[a.TestId()] != []
      ensures b == Done(w, e.realmCompleted, criteriaProgress, a)
    {
      if a.counter {
        return false;
      }
      if a.TestId() !in w.criteriaOf {
        return false;
      }
      if a.summ {
        b := IsSumReached(w.criteriaOf[a.TestId()]);
      } else {
        b := AreEnoughDone(e, w.criteriaOf[a.TestId()], a);
      }
    }

    /** First half of a progress update: clamp, find or create the record, store the new counter. */
    method StoreProgress(e: Env, c: Criteria, a: Achievement, change: uint32, ptype: ProgressType)
      returns (stored: bool, oldValue: uint32, newValue: uint32)
      modifies this`criteriaProgress, this`criteriaFailTimes
      ensures stored == !Ignored(old(S()), c, a, change, ptype)
      ensures !stored ==> S() == old(S())
      ensures stored ==> newValue == NewValue(old(S()), c, a, change, ptype)
      ensures oldValue == Counter(old(criteriaProgress), c.id)
      ensures stored ==> S() == Recorded(e, old(S()), c, newValue)
      ensures var before, after, max := old(Counter(criteriaProgress, c.id)), Counter(criteriaProgress, c.id),
                                        MaxCounter(c, a);
              if c.id in old(criteriaProgress)
              then before <= max || max == 0 ==> Moves(before, after, max, change, ptype)
              else after == if c.timeLimit != 0 && c.manualStart then 0 else Min(change, max)
    {
      if c.id in criteriaProgress && (MaxCounter(c, a) != 0 ==> criteriaProgress[c.id].counter <= MaxCounter(c, a)) {
        NewValueExactly(S(), c, a, change, ptype);
      }
      hide Moves;
      var maxValue := MaxCounter(c, a);
      var changeValue := if change > maxValue then maxValue else change;
      oldValue, newValue := 0, 0;
      var progress: CriteriaProgress;
      if c.id !in criteriaProgress {
        if changeValue == 0 {
          return false, oldValue, newValue;
        }
        if c.ExplicitlyStartedTimed() {
          return false, oldValue, newValue;
        }
        progress := CriteriaProgress(e.now, 0, false, false);
        if c.timeLimit != 0 {
          criteriaFailTimes := criteriaFailTimes[c.id := progress.date + c.timeLimit];
        }
        newValue := changeValue;
      } else {
        progress := criteriaProgress[c.id];
        oldValue := progress.counter;
        match ptype {
          case ProgressSet =>
            newValue := changeValue;
          case ProgressAccumulate =>
            newValue :=
              if Wrap(maxValue - progress.counter) > changeValue then Wrap(progress.counter + changeValue)
              else maxValue;
          case ProgressHighest =>
            newValue := if progress.counter < changeValue then changeValue else progress.counter;
        }
        if progress.counter == newValue {
          return false, oldValue, newValue;
        }
      }
      criteriaProgress := criteriaProgress[c.id := progress.(counter := newValue, changed := true)];
      stored := true;
    }

    method SetCriteriaProgress(e: Env, c: Criteria, a: Achievement, change: uint32, ptype: ProgressType)
      requires Valid(w, S())
      requires w.Knows(c) && a == w.achievements[c.referredAchievement]
      requires c.requiredType.CompleteAchievement? ==> c.requiredType.linkedAchievement in completedAchievements
      requires ptype.ProgressSet? ==> c.requiredType.OtherType?
      modifies this
      ensures Valid(w, S())
      ensures Ignored(old(S()), c, a, change, ptype) ==> S() == old(S())
      ensures !Ignored(old(S()), c, a, change, ptype) ==>
                OthersSame(w, Recorded(e, old(S()), c, NewValue(old(S()), c, a, change, ptype)), S())
      ensures NewValue(old(S()), c, a, change, ptype) >= Counter(old(criteriaProgress), c.id) ==>
                Improves(w, e, old(S()), S())
      ensures ptype.ProgressHighest? && c.timeLimit == 0 ==>
                Counter(criteriaProgress, c.id) >= Min(change, MaxCounter(c, a))
      ensures NewValue(old(S()), c, a, change, ptype) < Counter(old(criteriaProgress), c.id) ==>
                Lowers(w, e, old(S()), S(), c, NewValue(old(S()), c, a, change, ptype))
      ensures Call(w, e, old(S()), S())
      ensures Capped(w, old(S())) ==> Capped(w, S())
      ensures c.requiredType.OtherType? ==>
                StoredAs(e, old(S()), S(), c, if a.counter then 0xFFFF_FFFF else c.requiredType.limit, change, ptype)
      ensures a.counter && !a.summ && !Ignored(old(S()), c, a, change, ptype) ==>
                S() == Recorded(e, old(S()), c, NewValue(old(S()), c, a, change, ptype))
      decreases false, w.achievements.Keys - completedAchievements.Keys, 4
    {
      hide Valid, World.WellFormed, Improves, OthersSame, Missed, CriteriaDone, WithdrawnIds, Call, Capped;
      hide StoredAs, MaxCounter, NextCounter;
      ghost var s0 := S();
      MaxIsLimit(c, a);
      CallCases(w, e, s0, s0, c, 0);
      NextCounterBounded(w, s0, c, a, change, ptype);
      RecordedValid(w, e, s0, c, a, change, ptype);
      DependentsKnown(w, s0, c);
      ImprovesReflexive(w, e, s0);
      var stored, oldValue, newValue := StoreProgress(e, c, a, change, ptype);
      if !stored {
        if c.requiredType.OtherType? { StoredExactly(w, e, s0, S(), c, a, change, ptype); }
        return;
      }
      ghost var s1 := S();
      ImprovesReflexive(w, e, s1);
      OthersSameReflexive(w, s1);
      // nothing more to do for a plain counter
      if a.counter && !a.summ {
        if oldValue < newValue {
          RaiseSettled(w, e, s0, s1, s1, c, a, newValue);
        }
      } else if oldValue < newValue {
        RaiseDependents(e, c, a);
        GrowthOnly(w, e, s1, S());
        RaiseSettled(w, e, s0, s1, S(), c, a, newValue);
      } else {
        LowerDependents(e, a);
        LoweredValid(w, s1, S());
      }
      if c.requiredType.OtherType? { StoredExactly(w, e, s0, S(), c, a, change, ptype); }
      CallKeepsCapped(w, e, s0, S(), c, a, change, ptype);
      CallCases(w, e, s0, S(), c, newValue);
    }

    /** The branch taken when the counter went up. */
    method RaiseDependents(e: Env, c: Criteria, a: Achievement)
      requires Valid(w, S())
      requires w.Knows(c) && a == w.achievements[c.referredAchievement]
      modifies this
      ensures Valid(w, S())
      ensures Improves(w, e, old(S()), S()) && OthersSame(w, old(S()), S())
      ensures CriteriaDone(e.realmCompleted, old(criteriaProgress), c, a) || a.summ ==> !Missed(w, e, S(), a)
      ensures forall b :: b in w.ReferenceList(a.id) ==> !Missed(w, e, S(), b)
      decreases false, w.achievements.Keys - completedAchievements.Keys, 3
    {
      hide *;
      ghost var s1 := S();
      DependentsKnown(w, s1, c);
      ImprovesReflexive(w, e, s1);
      OthersSameReflexive(w, s1);
      var done := IsCompletedCriteria(e, c, a);
      if done {
        CompletedCriteriaFor(e, a);
      }
      ghost var s2 := S();
      if a.summ {
        GrowthOnly(w, e, s1, s2);
        TestAndComplete(e, a);
        Chain(w, e, s1, s2, S());
      }
      var refs := w.ReferenceList(a.id);
      for i := 0 to |refs|
        invariant Valid(w, S()) && Improves(w, e, s1, S()) && OthersSame(w, s1, S())
        invariant done || a.summ ==> !Missed(w, e, S(), a)
        invariant forall k :: 0 <= k < i ==> !Missed(w, e, S(), refs[k])
      {
        ghost var si := S();
        GrowthOnly(w, e, s1, si);
        TestAndComplete(e, refs[i]);
        Chain(w, e, s1, si, S());
      }
    }

    method CompletedCriteriaFor(e: Env, a: Achievement)
      requires Valid(w, S()) && w.Has(a)
      modifies this
      ensures Valid(w, S())
      ensures Improves(w, e, old(S()), S()) && OthersSame(w, old(S()), S())
      ensures !Missed(w, e, S(), a)
      decreases false, w.achievements.Keys - completedAchievements.Keys, 2
    {
      ImprovesReflexive(w, e, S());
      if a.counter {
        return;
      }
      if a.id in completedAchievements {
        return;
      }
      var done := IsCompletedAchievement(e, a);
      if done {
        CompletedAchievement(e, a);
      }
    }

    /** The pair of lines "if the test passes, complete it" that closes each dependent check. */
    method TestAndComplete(e: Env, a: Achievement)
      requires Valid(w, S()) && w.Has(a)
      modifies this
      ensures Valid(w, S())
      ensures Improves(w, e, old(S()), S()) && OthersSame(w, old(S()), S())
      ensures !Missed(w, e, S(), a)
      decreases false, w.achievements.Keys - completedAchievements.Keys, 2
    {
      ImprovesReflexive(w, e, S());
      var done := IsCompletedAchievement(e, a);
      if done {
        CompletedAchievement(e, a);
      }
    }

    method CompletedAchievement(e: Env, a: Achievement)
      requires Valid(w, S()) && w.Has(a)
      requires Done(w, e.realmCompleted, criteriaProgress, a)
      modifies this
      ensures Valid(w, S())
      ensures Improves(w, e, old(S()), S()) && OthersSame(w, old(S()), S())
      ensures a.counter || a.id in completedAchievements
      decreases false, w.achievements.Keys - completedAchievements.Keys, 1
    {
      hide *;
      ghost var s0 := S();
      ImprovesReflexive(w, e, s0);
      OthersSameReflexive(w, s0);
      if a.counter || a.id in completedAchievements {
        return;
      }
      completedAchievements := completedAchievements[a.id := CompletedAchievementData(e.now, true)];
      achievementPoints := Wrap(achievementPoints + a.points);
      ghost var s1 := S();
      EntryValid(w, e, s0, s1, a);
      var _ := UpdateAchievementCriteria(e, w.completeList, map[]);
      ghost var s2 := S();
      GrowthOnly(w, e, s1, s2);
      var _ := UpdateAchievementCriteria(e, w.pointsList, map[]);
      StaysCredited(w, e, s2, S());
      ImprovesTransitive(w, e, s1, s2, S());
      GrowthOnly(w, e, s1, S());
      EntrySettled(w, e, s0, s1, S(), a);
      OthersSameTransitive(w, s1, s2, S());
      OthersSameTransitive(w, s0, s1, S());
    }

    /** The states between the turns of the loop are a walk of outside calls, SET inputs included. */
    method UpdateAchievementCriteria(e: Env, list: seq<Criteria>, inputs: map<nat, (uint32, ProgressType)>)
      returns (ghost walk: seq<State>)
      requires Valid(w, S())
      requires forall k :: 0 <= k < |list| ==> w.Knows(list[k])
      modifies this
      ensures Valid(w, S())
      ensures Walk(w, e, walk) && walk[0] == old(S()) && walk[|walk| - 1] == S()
      ensures Capped(w, old(S())) ==> Capped(w, S())
      ensures !HasSet(inputs) ==> Improves(w, e, old(S()), S())
      ensures (forall k :: 0 <= k < |list| ==> !list[k].requiredType.OtherType?) ==> OthersSame(w, old(S()), S())
      ensures Settled(w, e, old(S())) ==> Settled(w, e, S())
      ensures forall k :: 0 <= k < |list| ==> !Uncredited(w, e, S(), list[k]) && !Lagging(w, e, S(), list[k])
      decreases HasSet(inputs), w.achievements.Keys - completedAchievements.Keys, 6
    {
      hide *;
      ghost var s0 := S();
      ImprovesReflexive(w, e, s0);
      OthersSameReflexive(w, s0);
      walk := [s0];
      WalkStarts(w, e, s0);
      if !e.enabled {
        NoCredits(w, e, s0);
        return;
      }
      for i := 0 to |list|
        invariant Valid(w, S())
        invariant Walk(w, e, walk) && |walk| > 0 && walk[0] == s0 && walk[|walk| - 1] == S()
        invariant Capped(w, s0) ==> Capped(w, S())
        invariant Settled(w, e, s0) ==> Settled(w, e, S())
        invariant !HasSet(inputs) ==> Improves(w, e, s0, S())
        invariant (forall k :: 0 <= k < |list| ==> !list[k].requiredType.OtherType?) ==> OthersSame(w, s0, S())
        invariant forall k :: 0 <= k < i ==> !Uncredited(w, e, S(), list[k]) && !Lagging(w, e, S(), list[k])
      {
        ghost var si := S();
        if !HasSet(inputs) {
          GrowthOnly(w, e, s0, si);
        }
        UpdateOne(e, list[i], inputs);
        WalkGoesOn(w, e, walk, S());
        walk := walk + [S()];
        if !HasSet(inputs) {
          ImprovesTransitive(w, e, s0, si, S());
        }
        TimersKnown(w, si);
        CallKeepsCredits(w, e, si, S());
        OthersSameTransitive(w, s0, si, S());
      }
    }

    /** One turn of the update loop. */
    method UpdateOne(e: Env, c: Criteria, inputs: map<nat, (uint32, ProgressType)>)
      requires Valid(w, S()) && w.Knows(c) && e.enabled
      modifies this
      ensures Valid(w, S())
      ensures !HasSet(inputs) ==> Improves(w, e, old(S()), S())
      ensures !c.requiredType.OtherType? ==> OthersSame(w, old(S()), S())
      ensures !Uncredited(w, e, S(), c) && !Lagging(w, e, S(), c)
      ensures Settled(w, e, old(S())) ==> Settled(w, e, S())
      ensures c.requiredType.OtherType? ==>
                var a := w.achievements[c.referredAchievement];
                if c.id in inputs && c.id in e.eligible &&
                   !CriteriaDone(e.realmCompleted, old(criteriaProgress), c, a)
                then StoredAs(e, old(S()), S(), c, if a.counter then 0xFFFF_FFFF else c.requiredType.limit,
                              inputs[c.id].0, inputs[c.id].1)
                else S() == old(S())
      ensures Call(w, e, old(S()), S())
      ensures Capped(w, old(S())) ==> Capped(w, S())
      decreases false, w.achievements.Keys - completedAchievements.Keys, 5
    {
      hide Valid, World.WellFormed, Improves, OthersSame, CriteriaDone, Uncredited, Lagging, NewValue;
      hide Ignored, Lowers, Step, Call, Settled, Capped, StoredAs;
      ghost var s0 := S();
      ImprovesReflexive(w, e, s0);
      OthersSameReflexive(w, s0);
      DependentsKnown(w, s0, c);
      var a := w.achievements[c.referredAchievement];
      SkipAllowed(w, e, s0, c, a);
      CallCases(w, e, s0, s0, c, 0);
      var done := IsCompletedCriteria(e, c, a);
      if done {
        return;
      }
      if c.id !in e.eligible {
        return;
      }
      var change: uint32, ptype := 0, ProgressHighest;
      match c.requiredType {
        case CompleteAchievement(linked) =>
          if linked !in completedAchievements {
            return;
          }
          change := 1;
        case EarnAchievementPoints =>
          change := achievementPoints;
        case OtherType(_) =>
          if c.id !in inputs {
            return;
          }
          change, ptype := inputs[c.id].0, inputs[c.id].1;
      }
      assert ptype.ProgressSet? ==> HasSet(inputs);
      NextCounterBounded(w, s0, c, a, change, ptype);
      if !c.requiredType.OtherType? {
        MetaRecordIsNoOther(w, e, s0, c, NewValue(s0, c, a, change, ptype));
      }
      SetCriteriaProgress(e, c, a, change, ptype);
      CallIsStep(w, e, s0, S());
      StepKeepsSettled(w, e, s0, S());
      CallKeepsCredits(w, e, s0, S());
      if !c.requiredType.OtherType? {
        CreditGiven(w, e, s0, S(), c, a, change);
      }
      if !c.requiredType.OtherType? {
        OthersSameTransitive(w, s0, Recorded(e, s0, c, NewValue(s0, c, a, change, ptype)), S());
      }
    }

    /** The tick that drops timers which ran out: exactly the expired timers go, and exactly the
        progress of their unfinished criteria. */
    method DoFailedTimedAchievementCriterias(e: Env)
      requires Valid(w, S())
      modifies this`criteriaProgress, this`criteriaFailTimes
      ensures criteriaFailTimes == old(criteriaFailTimes) - ExpiredAmong(e, old(S()), old(criteriaFailTimes.Keys))
      ensures criteriaProgress == old(criteriaProgress) - FailedAmong(w, e, old(S()), old(criteriaFailTimes.Keys))
      ensures Valid(w, S()) && Step(w, e, old(S()), S()) && (Capped(w, old(S())) ==> Capped(w, S()))
      ensures w.WellFormed() && (forall i :: i in old(criteriaFailTimes) ==>
                                   i in w.criteria && w.criteria[i].referredAchievement in w.achievements)
      ensures SweptAs(w, e, old(S()), S())
    {
      hide *;
      ghost var s0 := S();
      TimersKnown(w, s0);
      SweepStart(w, e, s0);
      var todo := criteriaFailTimes.Keys;
      ghost var ids := s0.failTimes.Keys;
      while todo != {}
        invariant todo <= ids
        invariant criteriaFailTimes == s0.failTimes - ExpiredAmong(e, s0, ids - todo)
        invariant criteriaProgress == s0.progress - FailedAmong(w, e, s0, ids - todo)
        decreases todo
      {
        var id := Least(todo);
        ghost var swept, s1 := ids - todo, S();
        todo := todo - {id};
        assert ids - todo == swept + {id};
        SweepNext(w, e, s0, s1, swept, id);
        SweepTimer(e, id);
        ghost var x, f := if Expired(e, s1, id) then {id} else {}, if Fails(w, e, s1, id) then {id} else {};
        assert criteriaFailTimes == s0.failTimes - ExpiredAmong(e, s0, swept) - x;
        assert criteriaProgress == s0.progress - FailedAmong(w, e, s0, swept) - f;
        RemoveTwice(s0.failTimes, ExpiredAmong(e, s0, swept), x);
        RemoveTwice(s0.progress, FailedAmong(w, e, s0, swept), f);
      }
      assert ids - todo == ids;
      SweepIsValidStep(w, e, s0, S());
      SweptExactly(w, e, s0, S());
    }

    /** One turn of the sweep. */
    method SweepTimer(e: Env, id: nat)
      requires id in criteriaFailTimes && id in criteriaProgress
      requires id in w.criteria && w.criteria[id].id == id && w.criteria[id].referredAchievement in w.achievements
      modifies this`criteriaProgress, this`criteriaFailTimes
      ensures criteriaFailTimes == old(criteriaFailTimes) - if Expired(e, old(S()), id) then {id} else {}
      ensures criteriaProgress == old(criteriaProgress) - if Fails(w, e, old(S()), id) then {id} else {}
    {
      if criteriaFailTimes[id] > e.now {
        return;
      }
      var c := w.criteria[id];
      var a := w.achievements[c.referredAchievement];
      var done := IsCompletedCriteria(e, c, a);
      if !done {
        assert id in criteriaProgress;  // the server's own assertion in this loop
        criteriaProgress := criteriaProgress - {id};
      }
      criteriaFailTimes := criteriaFailTimes - {id};
    }

    method StartTimedAchievementCriteria(e: Env, list: seq<Criteria>, matching: set<nat>, startTime: int)
      requires Valid(w, S())
      requires forall k :: 0 <= k < |list| ==> w.Knows(list[k])
      modifies this`criteriaProgress, this`criteriaFailTimes
      ensures Valid(w, S()) && Step(w, e, old(S()), S()) && (Capped(w, old(S())) ==> Capped(w, S()))
      ensures S() == if e.enabled then AllTimersStarted(w, e, old(S()), list, matching, startTime) else old(S())
      ensures w.WellFormed() && forall k :: 0 <= k < |list| ==> list[k].referredAchievement in w.achievements
      ensures e.enabled && (forall j, k :: 0 <= j < k < |list| ==> list[j].id != list[k].id) ==>
                forall k :: 0 <= k < |list| ==> StartedAs(w, e, old(S()), S(), list[k], matching, startTime)
    {
      ghost var s0 := S();
      ImprovesReflexive(w, e, s0);
      if !e.enabled {
        return;
      }
      for i := 0 to |list|
        invariant S() == AllTimersStarted(w, e, s0, list[..i], matching, startTime)
      {
        hide *;
        assert list[..i + 1][..i] == list[..i];
        StartTimer(e, list[i], matching, startTime);
        TimersStartedNext(w, e, s0, list, i, matching, startTime);
      }
      assert list[..|list|] == list;
      StartIsValidStep(w, e, s0, list, matching, startTime);
      StartKeepsCapped(w, e, s0, list, matching, startTime);
      hide Valid, Step, Capped, AllTimersStarted, StartedAs;
      if forall j, k :: 0 <= j < k < |list| ==> list[j].id != list[k].id {
        StartedExactly(w, e, s0, list, matching, startTime);
      }
    }

    /** One turn of the starting loop. */
    method StartTimer(e: Env, c: Criteria, matching: set<nat>, startTime: int)
      requires w.Knows(c)
      modifies this`criteriaProgress, this`criteriaFailTimes
      ensures S() == OneTimerStarted(w, e, old(S()), c, matching, startTime)
    {
      hide CriteriaDone;
      if c.id !in matching {
        return;
      }
      if !c.ExplicitlyStartedTimed() {
        return;
      }
      var a := w.achievements[c.referredAchievement];
      if c.id !in e.eligible {
        return;
      }
      var done := IsCompletedCriteria(e, c, a);
      if done {
        return;
      }
      if startTime != 0 && startTime + c.timeLimit < e.now {
        return;
      }
      var progress := if c.id in criteriaProgress then criteriaProgress[c.id] else CriteriaProgress(0, 0, false, false);
      progress := progress.(changed := true, counter := 0);
      progress := progress.(date := if startTime != 0 then startTime else e.now, timedCriteriaFailed := false);
      criteriaProgress := criteriaProgress[c.id := progress];
      criteriaFailTimes := criteriaFailTimes[c.id := progress.date + c.timeLimit];
    }

    /** Stored progress of any content is loaded row by row into a valid manager. */
    method LoadProgress(e: Env, rows: seq<ProgressRow>)
      requires Valid(w, S())
      modifies this`criteriaProgress, this`criteriaFailTimes
      ensures Valid(w, S()) && w.WellFormed()
      ensures S() == LoadedRows(w, e, old(S()), rows)
      ensures (forall j, k :: 0 <= j < k < |rows| ==> rows[j].criteria != rows[k].criteria) ==>
                forall k :: 0 <= k < |rows| && rows[k].criteria in w.criteria ==> LoadedFrom(w, e, S(), rows[k])
    {
      ghost var s0 := S();
      TimersKnown(w, s0);
      hide Valid, World.WellFormed, LoadedRow, LoadedFrom;
      for k := 0 to |rows|
        invariant Valid(w, S()) && S() == LoadedRows(w, e, s0, rows[..k])
      {
        LoadedRowsNext(w, e, s0, rows, k);
        LoadRow(e, rows[k]);
      }
      assert rows[..|rows|] == rows;
      if forall j, k :: 0 <= j < k < |rows| ==> rows[j].criteria != rows[k].criteria {
        LoadedExactly(w, e, s0, rows);
      }
    }

    method LoadRow(e: Env, row: ProgressRow)
      requires Valid(w, S())
      modifies this`criteriaProgress, this`criteriaFailTimes
      ensures Valid(w, S()) && w.WellFormed()
      ensures S() == LoadedRow(w, e, old(S()), row)
    {
      hide Valid, World.WellFormed, CriteriaDone, MaxCounter;
      ghost var s0 := S();
      TimersKnown(w, s0);
      LoadedRowValid(w, e, s0, row);
      if row.criteria !in w.criteria {
        return;
      }
      var c := w.criteria[row.criteria];
      var progress := CriteriaProgress(row.date, row.counter, false, false);
      criteriaProgress := criteriaProgress[row.criteria := progress];
      var a := w.achievements[c.referredAchievement];
      if c.timeLimit != 0 {
        var done := IsCompletedCriteria(e, c, a);
        if !done {
          var failTime := progress.date + c.timeLimit;
          criteriaFailTimes := criteriaFailTimes[c.id := failTime];
          if failTime <= e.now {
            progress := progress.(timedCriteriaFailed := true);
          }
        }
      }
      var maxcounter := MaxCounter(c, a);
      if maxcounter != 0 && progress.counter > maxcounter {
        progress := progress.(counter := maxcounter, changed := true);
      }
      criteriaProgress := criteriaProgress[row.criteria := progress];
      assert criteriaProgress == s0.progress[c.id := progress];
    }

    method LowerDependents(e: Env, a: Achievement)
      requires Valid(w, S()) && w.Has(a)
      modifies this`completedAchievements
      ensures completedAchievements ==
                old(completedAchievements) - WithdrawnIds(w, e, criteriaProgress, a.id, w.ReferenceList(a.id))
    {
      hide *;
      ghost var completed0, p := completedAchievements, criteriaProgress;
      ListsKnown(w, S(), a);
      WithdrawnFirst(w, e, p, a);
      WithdrawIfFailed(e, a);
      var refs := w.ReferenceList(a.id);
      assert refs[..0] == [];
      for k := 0 to |refs|
        invariant completedAchievements == completed0 - WithdrawnIds(w, e, p, a.id, refs[..k])
      {
        assert refs[..k + 1] == refs[..k] + [refs[k]];
        WithdrawnNext(w, e, p, a.id, refs[..k], refs[k]);
        WithdrawIfFailed(e, refs[k]);
      }
      assert refs[..|refs|] == refs;
    }

    /** "If it is recorded and fails its test now, take it back." */
    method WithdrawIfFailed(e: Env, a: Achievement)
      requires a.TestId() in w.criteriaOf ==> w.criteriaOf[a.TestId()] != []
      modifies this`completedAchievements
      ensures completedAchievements ==
                old(completedAchievements) -
                if !a.counter && !Done(w, e.realmCompleted, criteriaProgress, a) then {a.id} else {}
    {
      if a.id in completedAchievements {
        var done := IsCompletedAchievement(e, a);
        if !done {
          IncompletedAchievement(a);
        }
      }
    }

    method IncompletedAchievement(a: Achievement)
      modifies this`completedAchievements
      ensures completedAchievements ==
                if a.counter then old(completedAchievements) else old(completedAchievements) - {a.id}
    {
      if a.counter {
        return;
      }
      if a.id !in completedAchievements {
        return;
      }
      completedAchievements := completedAchievements - {a.id};
    }
  }
}
