/** The condition converter: rows that carry up to three inline conditions are translated into ids of
    one shared table of atoms and binary AND nodes.  The table only grows, equal contents are
    stored once, and every emitted id means exactly the conditions of its row. */
module Conditions {

  const AND_KIND: int := -1
  const NONE_KIND: int := 0

  datatype Condition = Condition(kind: int, value1: int, value2: int)
  datatype Entry = Entry(id: int, content: Condition)
  type Table = seq<Entry>

  const INITIAL_FILL: Entry := Entry(0, Condition(0, 0, 0))

  // ---------------------------------------------------------------- the table

  /** Dense ids, every content once, AND nodes over earlier entries only. */
  ghost predicate WellFormed(t: Table) {
    && |t| >= 1 && t[0] == INITIAL_FILL
    && (forall i :: 0 <= i < |t| ==> t[i].id == i)
    && (forall i, j :: 0 <= i < j < |t| ==> t[i].content != t[j].content)
    && (forall i :: 0 <= i < |t| && t[i].content.kind == AND_KIND ==>
          0 < t[i].content.value1 < i && 0 < t[i].content.value2 < i)
  }

  function FindFrom(t: Table, i: nat, c: Condition): int
    requires i <= |t|
    decreases |t| - i
  {
    if i == |t| then 0 else if t[i].content == c then t[i].id else FindFrom(t, i + 1, c)
  }

  /** The id of the first entry with this content, 0 when there is none. */
  function Find(t: Table, c: Condition): int { FindFrom(t, 0, c) }

  lemma {:induction false} FindFromCorrect(t: Table, i: nat, c: Condition)
    requires WellFormed(t) && i <= |t|
    ensures FindFrom(t, i, c) == 0 || (i <= FindFrom(t, i, c) < |t| && t[FindFrom(t, i, c)].content == c)
    ensures FindFrom(t, i, c) == 0 ==> forall j :: i <= j < |t| && 0 < j ==> t[j].content != c
    decreases |t| - i
  {
    if i < |t| {
      FindFromCorrect(t, i + 1, c);
    }
  }

  /** In a well-formed table a search answers the question "which entry holds this content". */
  lemma FindCorrect(t: Table, c: Condition)
    requires WellFormed(t)
    ensures 0 <= Find(t, c) < |t|
    ensures Find(t, c) > 0 ==> t[Find(t, c)].content == c
    ensures forall i :: 0 < i < |t| && t[i].content == c ==> Find(t, c) == i
  {
    FindFromCorrect(t, 0, c);
  }

  /** Growing keeps every earlier entry where it is. */
  ghost predicate Extends(t: Table, t': Table) { t <= t' }

  lemma FindStable(t: Table, t': Table, c: Condition)
    requires WellFormed(t) && WellFormed(t') && Extends(t, t') && Find(t, c) > 0
    ensures Find(t', c) == Find(t, c)
  {
    FindCorrect(t, c);
    FindCorrect(t', c);
  }

  // ---------------------------------------------------------------- meaning

  /** What the server reads from an entry: AND nodes combine, an empty condition is met, anything else
      is answered by the environment. */
  ghost predicate Eval(t: Table, i: int, env: Condition -> bool)
    requires WellFormed(t) && 0 <= i < |t|
    decreases i
  {
    var c := t[i].content;
    if c.kind == AND_KIND then Eval(t, c.value1, env) && Eval(t, c.value2, env)
    else c.kind == NONE_KIND || env(c)
  }

  /** Ids keep their meaning while the table grows. */
  lemma {:induction false} EvalStable(t: Table, t': Table, i: int, env: Condition -> bool)
    requires WellFormed(t) && WellFormed(t') && Extends(t, t') && 0 <= i < |t|
    ensures Eval(t', i, env) == Eval(t, i, env)
    decreases i
  {
    var c := t[i].content;
    assert t'[i] == t[i];
    if c.kind == AND_KIND {
      EvalStable(t, t', c.value1, env);
      EvalStable(t, t', c.value2, env);
    }
  }

  // ---------------------------------------------------------------- shapes and leaves

  ghost predicate Atom(t: Table, i: int) {
    0 < i < |t| && t[i].content.kind > 0
  }

  ghost predicate Pair(t: Table, i: int) {
    && 0 < i < |t| && t[i].content.kind == AND_KIND
    && Atom(t, t[i].content.value1) && Atom(t, t[i].content.value2)
  }

  ghost predicate Triple(t: Table, i: int) {
    && 0 < i < |t| && t[i].content.kind == AND_KIND
    && var c := t[i].content;
    || (Atom(t, c.value1) && Pair(t, c.value2))
    || (Pair(t, c.value1) && Atom(t, c.value2))
  }

  ghost predicate Shape(t: Table, i: int, n: nat) {
    if n == 1 then Atom(t, i) else if n == 2 then Pair(t, i) else n == 3 && Triple(t, i)
  }

  /** The entries below a node that are no AND nodes themselves, with multiplicity. */
  ghost function Leaves(t: Table, i: int): multiset<int>
    requires WellFormed(t) && 0 <= i < |t|
    decreases i
  {
    var c := t[i].content;
    if c.kind == AND_KIND then Leaves(t, c.value1) + Leaves(t, c.value2)
    else if c.kind == NONE_KIND then multiset{}
    else multiset{i}
  }

  lemma {:induction false} LeavesStable(t: Table, t': Table, i: int)
    requires WellFormed(t) && WellFormed(t') && Extends(t, t') && 0 <= i < |t|
    ensures Leaves(t', i) == Leaves(t, i)
    decreases i
  {
    var c := t[i].content;
    assert t'[i] == t[i];
    if c.kind == AND_KIND {
      LeavesStable(t, t', c.value1);
      LeavesStable(t, t', c.value2);
    }
  }

  /** A node is met exactly when all of its leaves are. */
  lemma {:induction false} EvalIsLeaves(t: Table, i: int, env: Condition -> bool)
    requires WellFormed(t) && 0 <= i < |t|
    ensures forall a :: a in Leaves(t, i) ==> 0 <= a < |t|
    ensures Eval(t, i, env) <==> forall a :: a in Leaves(t, i) ==> Eval(t, a, env)
    decreases i
  {
    var c := t[i].content;
    if c.kind == AND_KIND {
      EvalIsLeaves(t, c.value1, env);
      EvalIsLeaves(t, c.value2, env);
    }
  }

  /** No two pairs, and no two triples, join the same atoms. */
  ghost predicate Canonical(t: Table) {
    && WellFormed(t)
    && (forall i, j :: Pair(t, i) && Pair(t, j) && Leaves(t, i) == Leaves(t, j) ==> i == j)
    && (forall i, j :: Triple(t, i) && Triple(t, j) && Leaves(t, i) == Leaves(t, j) ==> i == j)
  }

  /** The id is a node over exactly these atoms. */
  ghost predicate Represents(t: Table, id: int, founds: seq<int>)
    requires WellFormed(t)
  {
    && Shape(t, id, |founds|)
    && 0 < id < |t|
    && Leaves(t, id) == multiset(founds)
  }

  lemma PairLeaves(t: Table, i: int)
    requires WellFormed(t) && Pair(t, i)
    ensures Leaves(t, i) == multiset{t[i].content.value1, t[i].content.value2}
  {
  }

  lemma TwoLeaves(a: int, b: int, c: int, d: int)
    requires multiset{a, b} == multiset{c, d}
    ensures (a == c && b == d) || (a == d && b == c)
  {
    assert a in multiset{c, d} && b in multiset{c, d};
    if a == b {
      assert multiset{a, b}[a] == 2;
    }
  }

  lemma Cancel(a: int, m: multiset<int>, n: multiset<int>)
    requires multiset{a} + m == multiset{a} + n
    ensures m == n
  {
    assert (multiset{a} + m) - multiset{a} == m;
    assert (multiset{a} + n) - multiset{a} == n;
  }

  // ---------------------------------------------------------------- searching and inserting nodes

  /** Either order of two children. */
  function FindEither(t: Table, a: int, b: int): int {
    var first := Find(t, Condition(AND_KIND, a, b));
    if first != 0 then first else Find(t, Condition(AND_KIND, b, a))
  }

  /** Looking for a pair in both orders finds it exactly when the table has it. */
  lemma FindPairCorrect(t: Table, a: int, b: int)
    requires Canonical(t) && Atom(t, a) && Atom(t, b)
    ensures 0 <= FindEither(t, a, b) < |t|
    ensures FindEither(t, a, b) > 0 ==> Represents(t, FindEither(t, a, b), [a, b])
    ensures FindEither(t, a, b) == 0 ==> forall i :: Pair(t, i) ==> Leaves(t, i) != multiset{a, b}
  {
    FindCorrect(t, Condition(AND_KIND, a, b));
    FindCorrect(t, Condition(AND_KIND, b, a));
    ShapeBounds(t);
    forall i | Pair(t, i) && Leaves(t, i) == multiset{a, b}
      ensures FindEither(t, a, b) > 0
    {
      PairOver(t, i, a, b);
    }
    if FindEither(t, a, b) > 0 {
      PairFor(t, FindEither(t, a, b), a, b);
    }
    hide Leaves, Pair, Atom, Represents, Find;
  }

  /** A pair with these leaves joins them in one order or the other. */
  lemma PairOver(t: Table, i: int, a: int, b: int)
    requires WellFormed(t) && Pair(t, i) && Leaves(t, i) == multiset{a, b}
    ensures t[i].content == Condition(AND_KIND, a, b) || t[i].content == Condition(AND_KIND, b, a)
  {
    PairLeaves(t, i);
    hide Leaves, WellFormed, Atom;
    TwoLeaves(t[i].content.value1, t[i].content.value2, a, b);
  }

  lemma PairFor(t: Table, i: int, a: int, b: int)
    requires WellFormed(t) && 0 < i < |t| && Atom(t, a) && Atom(t, b)
    requires t[i].content == Condition(AND_KIND, a, b) || t[i].content == Condition(AND_KIND, b, a)
    ensures Represents(t, i, [a, b])
  {
    assert Pair(t, i) by { hide WellFormed; }
    PairLeaves(t, i);
    hide Leaves, WellFormed, Atom;
    assert multiset([a, b]) == multiset{a, b};
  }

  lemma ExtendedShapes(t: Table, c: Condition)
    requires WellFormed(t)
    requires forall i :: 0 <= i < |t| ==> t[i].content != c
    requires c.kind == AND_KIND ==> 0 < c.value1 < |t| && 0 < c.value2 < |t|
    ensures var t' := t + [Entry(|t|, c)];
            && WellFormed(t') && Extends(t, t')
            && (forall i :: 0 <= i < |t| ==> (Atom(t, i) <==> Atom(t', i)))
            && (forall i :: 0 <= i < |t| ==> (Pair(t, i) <==> Pair(t', i)))
            && (forall i :: 0 <= i < |t| ==> (Triple(t, i) <==> Triple(t', i)))
            && (forall i :: 0 <= i < |t| ==> Leaves(t', i) == Leaves(t, i))
  {
    var t' := t + [Entry(|t|, c)];
    assert forall i :: 0 <= i < |t| ==> t'[i] == t[i];
    forall i | 0 <= i < |t| ensures Leaves(t', i) == Leaves(t, i) {
      LeavesStable(t, t', i);
    }
  }

  /** Adding an entry keeps the table canonical when no old node of its shape joins the same atoms. */
  lemma CanonicalGrows(t: Table, c: Condition)
    requires Canonical(t)
    requires forall i :: 0 <= i < |t| ==> t[i].content != c
    requires c.kind == AND_KIND ==> 0 < c.value1 < |t| && 0 < c.value2 < |t|
    requires var t' := t + [Entry(|t|, c)];
             WellFormed(t') ==>
             && (Pair(t', |t|) ==> forall i :: Pair(t, i) ==> Leaves(t, i) != Leaves(t', |t|))
             && (Triple(t', |t|) ==> forall i :: Triple(t, i) ==> Leaves(t, i) != Leaves(t', |t|))
    ensures Canonical(t + [Entry(|t|, c)])
  {
    ExtendedShapes(t, c);
    var t' := t + [Entry(|t|, c)];
    ShapeBounds(t);
    ShapeBounds(t');
    hide Leaves, Pair, Triple, Atom, WellFormed;
    forall i, j | Pair(t', i) && Pair(t', j) && Leaves(t', i) == Leaves(t', j) ensures i == j {
      assert i < |t| ==> Pair(t, i);
      assert j < |t| ==> Pair(t, j);
    }
    forall i, j | Triple(t', i) && Triple(t', j) && Leaves(t', i) == Leaves(t', j) ensures i == j {
      assert i < |t| ==> Triple(t, i);
      assert j < |t| ==> Triple(t, j);
    }
  }

  lemma ShapeBounds(t: Table)
    ensures forall i :: Pair(t, i) ==> 0 < i < |t| && !Atom(t, i) && !Triple(t, i)
    ensures forall i :: Triple(t, i) ==> 0 < i < |t| && !Atom(t, i)
    ensures forall i :: Atom(t, i) ==> 0 < i < |t|
  {
  }

  lemma InsertAtom(t: Table, c: Condition)
    requires Canonical(t) && c.kind > 0 && Find(t, c) == 0
    ensures Canonical(t + [Entry(|t|, c)]) && Atom(t + [Entry(|t|, c)], |t|)
  {
    FindCorrect(t, c);
    CanonicalGrows(t, c);
  }

  lemma InsertPair(t: Table, a: int, b: int)
    requires Canonical(t) && Atom(t, a) && Atom(t, b) && FindEither(t, a, b) == 0
    ensures var t' := t + [Entry(|t|, Condition(AND_KIND, a, b))];
            Canonical(t') && WellFormed(t') && Represents(t', |t|, [a, b])
  {
    var c := Condition(AND_KIND, a, b);
    FindPairCorrect(t, a, b);
    FindCorrect(t, c);
    ExtendedShapes(t, c);
    NewPair(t, a, b);
    ShapeBounds(t + [Entry(|t|, c)]);
    CanonicalGrows(t, c);
  }

  lemma NewPair(t: Table, a: int, b: int)
    requires Atom(t, a) && Atom(t, b) && WellFormed(t + [Entry(|t|, Condition(AND_KIND, a, b))])
    ensures var t' := t + [Entry(|t|, Condition(AND_KIND, a, b))];
            Represents(t', |t|, [a, b]) && Leaves(t', |t|) == multiset{a, b}
  {
    var t' := t + [Entry(|t|, Condition(AND_KIND, a, b))];
    assert Pair(t', |t|);
    PairLeaves(t', |t|);
  }

  lemma TripleLeaves(t: Table, i: int, a: int, p: int)
    requires WellFormed(t) && 0 < i < |t| && t[i].content == Condition(AND_KIND, a, p)
    requires Atom(t, a) && Pair(t, p)
    ensures Triple(t, i) && Leaves(t, i) == multiset{a} + Leaves(t, p)
  {
  }

  lemma InsertTriple(t: Table, a: int, p: int)
    requires Canonical(t) && Atom(t, a) && Pair(t, p)
    requires forall i :: Triple(t, i) ==> Leaves(t, i) != multiset{a} + Leaves(t, p)
    ensures var t' := t + [Entry(|t|, Condition(AND_KIND, a, p))];
            && Canonical(t') && Triple(t', |t|)
            && Leaves(t', |t|) == multiset{a} + Leaves(t, p)
  {
    var c := Condition(AND_KIND, a, p);
    forall i | 0 < i < |t| && t[i].content == c ensures false {
      TripleLeaves(t, i, a, p);
    }
    ExtendedShapes(t, c);
    TripleLeaves(t + [Entry(|t|, c)], |t|, a, p);
    ShapeBounds(t + [Entry(|t|, c)]);
    CanonicalGrows(t, c);
  }

  // ---------------------------------------------------------------- the conditions of a row

  /** Lexicographic order on condition triples. */
  predicate Greater(c: Condition, d: Condition) {
    c.kind > d.kind || (c.kind == d.kind && (c.value1 > d.value1 || (c.value1 == d.value1 && c.value2 > d.value2)))
  }

  ghost predicate Descending(s: seq<Condition>) {
    forall i, j :: 0 <= i < j < |s| ==> !Greater(s[j], s[i])
  }

  /** The conditions a row really has. */
  ghost function Positive(s: seq<Condition>): seq<Condition> {
    if s == [] then [] else (if s[0].kind > 0 then [s[0]] else []) + Positive(s[1..])
  }

  ghost function Insert(c: Condition, s: seq<Condition>): seq<Condition> {
    if s == [] || !Greater(s[0], c) then [c] + s else [s[0]] + Insert(c, s[1..])
  }

  ghost function Sort(s: seq<Condition>): seq<Condition> {
    if s == [] then [] else Insert(s[0], Sort(s[1..]))
  }

  /** The row's conditions in the order in which they are looked up. */
  ghost function Active(conds: seq<Condition>): seq<Condition> { Sort(Positive(conds)) }

  lemma {:induction false} InsertCounts(c: Condition, s: seq<Condition>)
    ensures multiset(Insert(c, s)) == multiset{c} + multiset(s)
  {
    hide Greater;
    if s != [] && Greater(s[0], c) {
      InsertCounts(c, s[1..]);
      assert s == [s[0]] + s[1..];
    }
  }

  lemma {:induction false} InsertElements(c: Condition, s: seq<Condition>)
    ensures forall d :: d in Insert(c, s) ==> d == c || d in s
  {
    hide Greater;
    if s != [] && Greater(s[0], c) {
      InsertElements(c, s[1..]);
    }
  }

  lemma DescendingTail(s: seq<Condition>)
    requires s != [] && Descending(s)
    ensures Descending(s[1..]) && forall d :: d in s ==> !Greater(d, s[0])
  {
    NotGreaterItself(s[0]);
    hide Greater;
  }

  lemma NotGreaterItself(c: Condition)
    ensures !Greater(c, c)
  {
  }

  lemma DescendingCons(c: Condition, s: seq<Condition>)
    requires Descending(s) && forall d :: d in s ==> !Greater(d, c)
    ensures Descending([c] + s)
  {
    hide Greater;
    assert forall i :: 0 <= i < |s| ==> s[i] in s;
  }

  lemma {:induction false} InsertDescending(c: Condition, s: seq<Condition>)
    requires Descending(s)
    ensures Descending(Insert(c, s))
  {
    hide Descending;
    if s == [] {
      DescendingCons(c, s);
    } else {
      DescendingTail(s);
      if Greater(s[0], c) {
        InsertDescending(c, s[1..]);
        InsertElements(c, s[1..]);
        assert s == [s[0]] + s[1..];
        DescendingCons(s[0], Insert(c, s[1..]));
      } else {
        DescendingCons(c, s);
      }
    }
  }

  lemma {:induction false} SortSorted(s: seq<Condition>)
    ensures Descending(Sort(s)) && multiset(Sort(s)) == multiset(s)
  {
    if s != [] {
      SortSorted(s[1..]);
      InsertDescending(s[0], Sort(s[1..]));
      InsertCounts(s[0], Sort(s[1..]));
      assert s == [s[0]] + s[1..];
      hide Insert, Descending;
    }
  }

  lemma TotalOrder(c: Condition, d: Condition)
    requires !Greater(c, d) && !Greater(d, c)
    ensures c == d
  {
  }

  lemma TailCounts(s: seq<Condition>)
    requires s != []
    ensures multiset(s[1..]) == multiset(s) - multiset{s[0]} && s[0] in multiset(s)
  {
    assert s == [s[0]] + s[1..];
    assert multiset(s) == multiset{s[0]} + multiset(s[1..]);
  }

  /** Only one descending order of the same conditions exists. */
  lemma {:induction false} DescendingUnique(s: seq<Condition>, t: seq<Condition>)
    requires Descending(s) && Descending(t) && multiset(s) == multiset(t)
    ensures s == t
  {
    hide *;
    if s == [] || t == [] {
      assert |multiset(s)| == |s| && |multiset(t)| == |t|;
    } else {
      DescendingTail(s);
      DescendingTail(t);
      TailCounts(s);
      TailCounts(t);
      assert s[0] in t && t[0] in s;
      TotalOrder(s[0], t[0]);
      DescendingUnique(s[1..], t[1..]);
      assert s == [s[0]] + s[1..] && t == [t[0]] + t[1..];
    }
  }

  lemma {:induction false} PositiveCounts(s: seq<Condition>)
    ensures forall c :: multiset(Positive(s))[c] == if c.kind > 0 then multiset(s)[c] else 0
    ensures forall c :: c in Positive(s) <==> c in s && c.kind > 0
    ensures |Positive(s)| <= |s|
  {
    if s != [] {
      PositiveCounts(s[1..]);
      var head := if s[0].kind > 0 then [s[0]] else [];
      assert Positive(s) == head + Positive(s[1..]);
      assert s == [s[0]] + s[1..];
      hide Positive;
      forall c ensures multiset(Positive(s))[c] == if c.kind > 0 then multiset(s)[c] else 0 {
        assert multiset(Positive(s)) == multiset(head) + multiset(Positive(s[1..]));
        assert multiset(s) == multiset{s[0]} + multiset(s[1..]);
      }
    }
  }

  lemma PrefixCounts(sorted: seq<Condition>, n: nat, c: Condition)
    requires n <= |sorted|
    requires forall k :: 0 <= k < |sorted| ==> (sorted[k].kind > 0 <==> k < n)
    ensures multiset(sorted[..n])[c] == if c.kind > 0 then multiset(sorted)[c] else 0
  {
    assert sorted == sorted[..n] + sorted[n..];
    if c.kind > 0 {
      assert c !in sorted[n..];
      assert multiset(sorted[n..])[c] == 0;
    } else {
      assert c !in sorted[..n];
    }
  }

  /** Sorting the whole row and cutting it off after the conditions gives the sorted conditions. */
  lemma PrefixIsActive(sorted: seq<Condition>, n: nat, conds: seq<Condition>)
    requires n <= |sorted| && Descending(sorted[..n])
    requires forall k :: 0 <= k < |sorted| ==> (sorted[k].kind > 0 <==> k < n)
    requires forall c: Condition :: c.kind > 0 ==> multiset(sorted)[c] == multiset(conds)[c]
    ensures sorted[..n] == Active(conds)
  {
    hide Positive, Sort, Insert, Descending;
    PositiveCounts(conds);
    SortSorted(Positive(conds));
    forall c ensures multiset(sorted[..n])[c] == multiset(Positive(conds))[c] {
      PrefixCounts(sorted, n, c);
    }
    assert multiset(sorted[..n]) == multiset(Positive(conds));
    DescendingUnique(sorted[..n], Active(conds));
  }

  ghost predicate Permutes(a: Condition, b: Condition, c: Condition, x: Condition, y: Condition, z: Condition) {
    || (a == x && b == y && c == z) || (a == x && b == z && c == y)
    || (a == y && b == x && c == z) || (a == y && b == z && c == x)
    || (a == z && b == x && c == y) || (a == z && b == y && c == x)
  }

  lemma ThreeElements(a: Condition, b: Condition, c: Condition)
    ensures multiset([a, b, c]) == multiset{a} + multiset{b} + multiset{c}
  {
    assert [a, b, c] == ([a] + [b]) + [c];
    assert multiset([a] + [b]) == multiset([a]) + multiset([b]);
    assert multiset([a]) == multiset{a} && multiset([b]) == multiset{b} && multiset([c]) == multiset{c};
  }

  lemma PermutesKeepsMultiset(a: Condition, b: Condition, c: Condition, x: Condition, y: Condition, z: Condition)
    requires Permutes(a, b, c, x, y, z)
    ensures multiset([a, b, c]) == multiset([x, y, z])
  {
    ThreeElements(a, b, c);
    ThreeElements(x, y, z);
  }

  /** Three outputs whose conditions come first and in descending order. */
  ghost predicate Settled(c1: Condition, c2: Condition, c3: Condition) {
    && (c2.kind > 0 ==> c1.kind > 0 && !Greater(c2, c1))
    && (c3.kind > 0 ==> c2.kind > 0 && !Greater(c3, c2) && !Greater(c3, c1))
  }

  lemma SettledPrefix(c1: Condition, c2: Condition, c3: Condition, n: nat)
    requires Settled(c1, c2, c3)
    requires n == (if c1.kind > 0 then 1 else 0) + (if c2.kind > 0 then 1 else 0) + (if c3.kind > 0 then 1 else 0)
    ensures Descending([c1, c2, c3][..n])
    ensures forall k :: 0 <= k < 3 ==> ([c1, c2, c3][k].kind > 0 <==> k < n)
  {
    hide Greater;
  }

  method CompareCondition(c: Condition, d: Condition) returns (greater: bool)
    ensures greater == Greater(c, d)
  {
    if c.kind > d.kind {
      return true;
    }
    if c.kind == d.kind {
      if c.value1 > d.value1 {
        return true;
      }
      if c.value1 == d.value1 {
        if c.value2 > d.value2 {
          return true;
        }
      }
    }
    return false;
  }

  /** The comparison network of a row with `n` conditions, missing conditions being zero. */
  method Network(n: nat, x: Condition, y: Condition, z: Condition) returns (c1: Condition, c2: Condition, c3: Condition)
    requires n < 2 ==> y.kind == 0
    requires n < 3 ==> z.kind == 0
    ensures Settled(c1, c2, c3) && Permutes(c1, c2, c3, x, y, z)
  {
    c1, c2, c3 := x, y, z;
    if n >= 2 {
      var swap := CompareCondition(c2, c1);
      if swap {
        c1, c2 := c2, c1;
      }
    }
    if n >= 3 {
      var swap := CompareCondition(c3, c2);
      if swap {
        c2, c3 := c3, c2;
      }
      swap := CompareCondition(c2, c1);
      if swap {
        c1, c2 := c2, c1;
      }
    }
  }

  method OrderConditions(conds: seq<Condition>) returns (c1: Condition, c2: Condition, c3: Condition)
    requires 1 <= |conds| <= 3
    ensures Settled(c1, c2, c3)
    ensures forall c: Condition :: c.kind > 0 ==> multiset([c1, c2, c3])[c] == multiset(conds)[c]
  {
    hide *;
    var none := Condition(0, 0, 0);
    var x, y, z := conds[0], none, none;
    if |conds| >= 2 {
      y := conds[1];
    }
    if |conds| >= 3 {
      z := conds[2];
    }
    c1, c2, c3 := Network(|conds|, x, y, z);
    PaddingIsInactive(conds, [x, y, z]);
    PermutesKeepsMultiset(c1, c2, c3, x, y, z);
  }

  /** How many conditions a row has, and that they are then the first outputs of the network, sorted. */
  method RowConditions(conds: seq<Condition>) returns (cs: seq<Condition>)
    requires 1 <= |conds| <= 3
    ensures cs == Active(conds)
  {
    hide *;
    var c1, c2, c3 := OrderConditions(conds);
    var n := 0;
    if c1.kind > 0 {
      n := n + 1;
    }
    if c2.kind > 0 {
      n := n + 1;
    }
    if c3.kind > 0 {
      n := n + 1;
    }
    SettledPrefix(c1, c2, c3, n);
    PrefixIsActive([c1, c2, c3], n, conds);
    cs := [c1, c2, c3][..n];
  }

  lemma PaddingIsInactive(conds: seq<Condition>, padded: seq<Condition>)
    requires |conds| <= |padded| && padded[..|conds|] == conds
    requires forall k :: |conds| <= k < |padded| ==> padded[k].kind == 0
    ensures forall c: Condition :: c.kind > 0 ==> multiset(padded)[c] == multiset(conds)[c]
  {
    assert padded == conds + padded[|conds|..];
    forall c: Condition | c.kind > 0 ensures multiset(padded)[c] == multiset(conds)[c] {
      assert c !in padded[|conds|..];
      assert multiset(padded[|conds|..])[c] == 0;
    }
  }

  // ---------------------------------------------------------------- the id of a row

  ghost function Finds(t: Table, cs: seq<Condition>): seq<int> {
    seq(|cs|, k requires 0 <= k < |cs| => Find(t, cs[k]))
  }

  ghost predicate Interned(t: Table, conds: seq<Condition>) {
    forall c :: c in Positive(conds) ==> Find(t, c) > 0
  }

  /** This id stands for this row: a node over exactly the atoms of its conditions. */
  ghost predicate RowId(t: Table, conds: seq<Condition>, id: int) {
    && WellFormed(t)
    && Interned(t, conds)
    && Represents(t, id, Finds(t, Active(conds)))
  }

  lemma ActiveElements(conds: seq<Condition>)
    ensures multiset(Active(conds)) == multiset(Positive(conds))
    ensures forall c :: c in Active(conds) <==> c in Positive(conds)
    ensures forall c :: c in Active(conds) ==> c.kind > 0 && c in conds
    ensures |Active(conds)| <= |conds|
  {
    SortSorted(Positive(conds));
    PositiveCounts(conds);
    assert |multiset(Active(conds))| == |multiset(Positive(conds))|;
    forall c ensures c in Active(conds) <==> c in Positive(conds) {
      assert c in Active(conds) <==> c in multiset(Active(conds));
    }
  }

  /** The main result: for every environment the id of a row is met exactly when all its conditions are. */
  lemma RowIdMeaning(t: Table, conds: seq<Condition>, id: int, env: Condition -> bool)
    requires RowId(t, conds, id)
    ensures 0 < id < |t| && (Eval(t, id, env) <==> forall c :: c in conds && c.kind > 0 ==> env(c))
  {
    hide *;
    var cs := Active(conds);
    var fs := Finds(t, cs);
    RowIdFacts(t, conds, id);
    EvalIsLeaves(t, id, env);
    FoundsMeaning(t, cs, env);
    if Eval(t, id, env) {
      forall c | c in conds && c.kind > 0 ensures env(c) {
        var k :| 0 <= k < |cs| && cs[k] == c;
        assert fs[k] in fs;
        assert Eval(t, fs[k], env);
      }
    }
  }

  lemma RowIdFacts(t: Table, conds: seq<Condition>, id: int)
    requires RowId(t, conds, id)
    ensures WellFormed(t) && 0 < id < |t|
    ensures Leaves(t, id) == multiset(Finds(t, Active(conds)))
    ensures forall c :: c in Active(conds) <==> c in conds && c.kind > 0
    ensures forall c :: c in Active(conds) ==> Find(t, c) > 0
    ensures |Finds(t, Active(conds))| == |Active(conds)|
  {
    ActiveElements(conds);
    PositiveCounts(conds);
  }

  lemma FoundsMeaning(t: Table, cs: seq<Condition>, env: Condition -> bool)
    requires WellFormed(t) && forall c :: c in cs ==> c.kind > 0 && Find(t, c) > 0
    ensures forall k :: 0 <= k < |cs| ==>
              var a := Finds(t, cs)[k];
              0 < a < |t| && (Eval(t, a, env) <==> env(cs[k]))
  {
    forall k | 0 <= k < |cs| ensures 0 < Find(t, cs[k]) < |t| && (Eval(t, Find(t, cs[k]), env) <==> env(cs[k])) {
      assert cs[k] in cs;
      FindCorrect(t, cs[k]);
    }
  }

  /** The id of a row stays its id while the table grows. */
  lemma RowIdStable(t: Table, t': Table, conds: seq<Condition>, id: int)
    requires RowId(t, conds, id) && WellFormed(t') && Extends(t, t')
    ensures RowId(t', conds, id)
  {
    FoundsStable(t, t', conds);
    LeavesStable(t, t', id);
    ShapeStable(t, t', id, |Finds(t, Active(conds))|);
    hide WellFormed, Find, Finds, Interned, Active, Shape, Leaves;
  }

  lemma FoundsStable(t: Table, t': Table, conds: seq<Condition>)
    requires WellFormed(t) && WellFormed(t') && Extends(t, t') && Interned(t, conds)
    ensures Interned(t', conds) && Finds(t', Active(conds)) == Finds(t, Active(conds))
  {
    ActiveElements(conds);
    forall c | c in Positive(conds) ensures Find(t', c) == Find(t, c) {
      FindStable(t, t', c);
    }
    hide WellFormed, Find, Active, Positive;
    forall k | 0 <= k < |Active(conds)| ensures Find(t', Active(conds)[k]) == Find(t, Active(conds)[k]) {
      assert Active(conds)[k] in Active(conds);
    }
  }

  lemma ShapeStable(t: Table, t': Table, i: int, n: nat)
    requires WellFormed(t) && WellFormed(t') && Extends(t, t') && Shape(t, i, n)
    ensures Shape(t', i, n)
  {
    assert forall j :: 0 <= j < |t| ==> t'[j] == t[j];
  }

  lemma {:induction false} ContentsOfFinds(t: Table, cs: seq<Condition>, i: int)
    requires WellFormed(t) && 0 < i < |t|
    requires forall c :: c in cs ==> Find(t, c) > 0
    ensures multiset(Finds(t, cs))[i] == multiset(cs)[t[i].content]
  {
    if cs != [] {
      var front, last := cs[..|cs| - 1], cs[|cs| - 1];
      ContentsOfFinds(t, front, i);
      assert cs == front + [last] && Finds(t, cs) == Finds(t, front) + [Find(t, last)];
      FindCorrect(t, last);
    }
  }

  /** Canonical ids: two rows get the same id exactly when they hold the same conditions, as multisets. */
  lemma RowIdCanonical(t: Table, conds: seq<Condition>, id: int, conds': seq<Condition>, id': int)
    requires Canonical(t) && RowId(t, conds, id) && RowId(t, conds', id')
    ensures id == id' <==> multiset(Positive(conds)) == multiset(Positive(conds'))
  {
    hide *;
    ActiveElements(conds);
    ActiveElements(conds');
    if multiset(Positive(conds)) == multiset(Positive(conds')) {
      SameConditionsSameId(t, conds, id, conds', id');
    }
    if id == id' {
      SameIdSameConditions(t, conds, conds', id);
    }
  }

  lemma SameConditionsSameId(t: Table, conds: seq<Condition>, id: int, conds': seq<Condition>, id': int)
    requires Canonical(t) && RowId(t, conds, id) && RowId(t, conds', id')
    requires multiset(Positive(conds)) == multiset(Positive(conds'))
    ensures id == id'
  {
    SortSorted(Positive(conds));
    SortSorted(Positive(conds'));
    DescendingUnique(Active(conds), Active(conds'));
    var fs := Finds(t, Active(conds));
    hide Active, Finds, Positive, Interned, Find, Represents, Canonical, WellFormed, Sort, Descending;
    assert Represents(t, id, fs) && Represents(t, id', fs);
    RepresentsOnce(t, id, id', fs);
  }

  /** No two entries represent the same atoms. */
  lemma RepresentsOnce(t: Table, id: int, id': int, fs: seq<int>)
    requires Canonical(t) && Represents(t, id, fs) && Represents(t, id', fs)
    ensures id == id'
  {
    if |fs| == 1 {
      AtomLeaves(t, id);
      AtomLeaves(t, id');
      assert id in multiset(fs) && id' in multiset(fs);
    }
    hide Leaves, WellFormed, Pair, Triple, Atom;
  }

  lemma SameIdSameConditions(t: Table, conds: seq<Condition>, conds': seq<Condition>, id: int)
    requires RowId(t, conds, id) && RowId(t, conds', id)
    ensures multiset(Active(conds)) == multiset(Active(conds'))
  {
    hide *;
    var cs, cs' := Active(conds), Active(conds');
    RowIdFacts(t, conds, id);
    RowIdFacts(t, conds', id);
    forall c ensures multiset(cs)[c] == multiset(cs')[c] {
      if c in cs || c in cs' {
        FindCorrect(t, c);
        ContentsOfFinds(t, cs, Find(t, c));
        ContentsOfFinds(t, cs', Find(t, c));
      } else {
        assert multiset(cs)[c] == 0 && multiset(cs')[c] == 0;
      }
    }
  }

  // ---------------------------------------------------------------- tables, passes and updates

  datatype Row = Row(key1: int, key2: int, conds: seq<Condition>)

  /** A database table whose rows select `width` conditions each. */
  datatype SqlTable = SqlTable(name: string, width: nat, rows: seq<Row>) {
    ghost predicate Valid() {
      1 <= width <= 3 && forall k :: 0 <= k < |rows| ==> |rows[k].conds| == width
    }
  }

  /** The loot tables that every expansion has, in the order in which they are walked over. */
  const LOOT_TABLES: seq<string> := [
    "reference_loot_template", "creature_loot_template", "gameobject_loot_template", "pickpocketing_loot_template",
    "item_loot_template", "fishing_loot_template", "skinning_loot_template", "disenchant_loot_template",
    "mail_loot_template"]

  datatype Database = Database(
    name: string,
    expansion: int,
    loot: seq<SqlTable>,
    prospecting: SqlTable,
    spellLoot: SqlTable,
    milling: SqlTable,
    gossipMenu: SqlTable,
    gossipMenuOption: SqlTable)
  {
    /** The loot tables that exist in this expansion; all of them carry one condition a row. */
    function LootTables(): seq<SqlTable> {
      loot + (if expansion >= 1 then [prospecting] else []) + (if expansion >= 2 then [spellLoot, milling] else [])
    }

    function AllTables(): seq<SqlTable> { LootTables() + [gossipMenu] + [gossipMenuOption] }

    /** The tables a pass walks over. */
    function TablesInPass(pass: nat): seq<SqlTable> {
      (if pass <= 1 then LootTables() else []) + (if pass < 3 then [gossipMenu] else []) + [gossipMenuOption]
    }

    /** Which tables there are, said one by one. */
    ghost predicate Offers(t: SqlTable) {
      || t in loot || t == gossipMenu || t == gossipMenuOption
      || (expansion >= 1 && t == prospecting)
      || (expansion >= 2 && (t == spellLoot || t == milling))
    }

    ghost predicate Named() {
      && |loot| == |LOOT_TABLES| && (forall k :: 0 <= k < |loot| ==> loot[k].name == LOOT_TABLES[k])
      && prospecting.name == "prospecting_loot_template"
      && spellLoot.name == "spell_loot_template" && milling.name == "milling_loot_template"
      && gossipMenu.name == "gossip_menu" && gossipMenuOption.name == "gossip_menu_option"
    }

    ghost predicate Valid() {
      && Named()
      && (forall k :: 0 <= k < |LootTables()| ==> LootTables()[k].width == 1)
      && gossipMenu.width == 2 && gossipMenuOption.width == 3
      && (forall k :: 0 <= k < |AllTables()| ==> AllTables()[k].Valid())
    }
  }

  datatype Place = Place(database: string, table: string, row: Row)
  datatype Update = Update(database: string, table: string, key1: int, key2: int, id: int)

  /** The rows of a table with exactly `n` conditions, in order. */
  ghost function RowsWith(db: string, name: string, rows: seq<Row>, n: nat): seq<Place> {
    if rows == [] then []
    else RowsWith(db, name, rows[..|rows| - 1], n) +
         if |Active(rows[|rows| - 1].conds)| == n then [Place(db, name, rows[|rows| - 1])] else []
  }

  ghost function InTables(db: string, tables: seq<SqlTable>, n: nat): seq<Place> {
    if tables == [] then []
    else InTables(db, tables[..|tables| - 1], n) +
         RowsWith(db, tables[|tables| - 1].name, tables[|tables| - 1].rows, n)
  }

  /** What one pass has to update: nothing in pass 0, the rows with `pass` conditions afterwards. */
  ghost function DueInPass(dbs: seq<Database>, pass: nat): seq<Place> {
    if dbs == [] || pass == 0 then []
    else DueInPass(dbs[..|dbs| - 1], pass) +
         InTables(dbs[|dbs| - 1].name, dbs[|dbs| - 1].TablesInPass(pass), pass)
  }

  ghost function DueUpTo(dbs: seq<Database>, passes: nat): seq<Place> {
    if passes == 0 then [] else DueUpTo(dbs, passes - 1) + DueInPass(dbs, passes - 1)
  }

  /** Every row of every table that has between one and three conditions, each once. */
  ghost function Conditioned(dbs: seq<Database>): seq<Place> {
    if dbs == [] then []
    else
      var db := dbs[|dbs| - 1];
      Conditioned(dbs[..|dbs| - 1]) + InTables(db.name, db.AllTables(), 1) +
      InTables(db.name, db.AllTables(), 2) + InTables(db.name, db.AllTables(), 3)
  }

  ghost predicate EmitsFor(t: Table, u: Update, place: Place) {
    && u.database == place.database && u.table == place.table
    && u.key1 == place.row.key1 && u.key2 == place.row.key2
    && RowId(t, place.row.conds, u.id)
  }

  ghost predicate Emitted(t: Table, us: seq<Update>, places: seq<Place>) {
    |us| == |places| && forall k :: 0 <= k < |us| ==> EmitsFor(t, us[k], places[k])
  }

  /** This update is for this row of this table of this database, and its id stands for the row. */
  ghost predicate Writes(t: Table, u: Update, db: Database, table: SqlTable, row: Row) {
    && u.database == db.name && u.table == table.name && u.key1 == row.key1 && u.key2 == row.key2
    && RowId(t, row.conds, u.id)
  }

  ghost predicate HasCondition(row: Row) { exists c :: c in row.conds && c.kind > 0 }

  /** A row that needs an update: it has a condition, and its table is there in this expansion. */
  ghost predicate Wanted(dbs: seq<Database>, db: Database, table: SqlTable, row: Row) {
    db in dbs && db.Offers(table) && row in table.rows && HasCondition(row)
  }

  ghost predicate Written(t: Table, us: seq<Update>, db: Database, table: SqlTable, row: Row) {
    exists u :: u in us && Writes(t, u, db, table, row)
  }

  ghost predicate Justified(t: Table, u: Update, dbs: seq<Database>) {
    exists db, table, row :: Wanted(dbs, db, table, row) && Writes(t, u, db, table, row)
  }

  lemma EmittedStable(t: Table, t': Table, us: seq<Update>, places: seq<Place>)
    requires Emitted(t, us, places) && WellFormed(t') && Extends(t, t')
    ensures Emitted(t', us, places)
  {
    forall k | 0 <= k < |us| ensures EmitsFor(t', us[k], places[k]) {
      RowIdStable(t, t', places[k].row.conds, us[k].id);
    }
  }

  /** Updates already written stay right, and new ones join them. */
  lemma EmittedMore(t: Table, t': Table, us: seq<Update>, vs: seq<Update>, ps: seq<Place>, qs: seq<Place>)
    requires Emitted(t, us, ps) && Emitted(t', vs, qs) && WellFormed(t') && Extends(t, t')
    ensures Emitted(t', us + vs, ps + qs)
  {
    EmittedStable(t, t', us, ps);
    EmittedJoin(t', us, vs, ps, qs);
  }

  lemma EmittedJoin(t: Table, us: seq<Update>, vs: seq<Update>, ps: seq<Place>, qs: seq<Place>)
    requires Emitted(t, us, ps) && Emitted(t, vs, qs)
    ensures Emitted(t, us + vs, ps + qs)
  {
    hide EmitsFor;
    forall k | 0 <= k < |us + vs| ensures EmitsFor(t, (us + vs)[k], (ps + qs)[k]) {
      if k < |us| {
        assert EmitsFor(t, us[k], ps[k]);
      } else {
        assert EmitsFor(t, vs[k - |us|], qs[k - |us|]);
      }
    }
  }

  ghost predicate AllInterned(t: Table, rows: seq<Row>) {
    forall k :: 0 <= k < |rows| ==> Interned(t, rows[k].conds)
  }

  ghost predicate TablesInterned(t: Table, tables: seq<SqlTable>) {
    forall k :: 0 <= k < |tables| ==> AllInterned(t, tables[k].rows)
  }

  lemma InternedStable(t: Table, t': Table, conds: seq<Condition>)
    requires WellFormed(t) && WellFormed(t') && Extends(t, t') && Interned(t, conds)
    ensures Interned(t', conds)
  {
    forall c | c in Positive(conds) ensures Find(t', c) > 0 {
      FindStable(t, t', c);
    }
  }

  lemma TablesInternedStable(t: Table, t': Table, tables: seq<SqlTable>)
    requires WellFormed(t) && WellFormed(t') && Extends(t, t') && TablesInterned(t, tables)
    ensures TablesInterned(t', tables)
  {
    forall k, r | 0 <= k < |tables| && 0 <= r < |tables[k].rows| ensures Interned(t', tables[k].rows[r].conds) {
      assert AllInterned(t, tables[k].rows);
      InternedStable(t, t', tables[k].rows[r].conds);
    }
  }

  lemma RepresentsSwap(t: Table, id: int, a: int, b: int)
    requires WellFormed(t) && Represents(t, id, [a, b])
    ensures Represents(t, id, [b, a])
  {
    assert multiset([a, b]) == multiset([b, a]);
  }

  /** The two atoms of a triple that are not the k-th. */
  function Rest(founds: seq<int>, k: nat): (int, int)
    requires |founds| == 3 && k < 3
  {
    if k == 0 then (founds[1], founds[2]) else if k == 1 then (founds[0], founds[2]) else (founds[0], founds[1])
  }

  lemma RestSplits(founds: seq<int>, k: nat)
    requires |founds| == 3 && k < 3
    ensures multiset(founds) == multiset{founds[k]} + multiset{Rest(founds, k).0, Rest(founds, k).1}
  {
    assert founds == [founds[0]] + [founds[1]] + [founds[2]];
    assert multiset(founds) == multiset{founds[0]} + multiset{founds[1]} + multiset{founds[2]};
    var rest := Rest(founds, k);
    PairMultiset(rest.0, rest.1);
    if k == 0 {
      assert rest == (founds[1], founds[2]);
    } else if k == 1 {
      assert rest == (founds[0], founds[2]);
    } else {
      assert rest == (founds[0], founds[1]);
    }
    hide Rest;
  }

  lemma PairMultiset(a: int, b: int)
    ensures multiset{a, b} == multiset{a} + multiset{b}
  {
  }

  /** Entry i joins the atom a with the pair p. */
  ghost predicate Over(t: Table, i: int, a: int, p: int) {
    && 0 < i < |t| && Atom(t, a) && Pair(t, p)
    && (t[i].content == Condition(AND_KIND, a, p) || t[i].content == Condition(AND_KIND, p, a))
  }

  ghost function RestLeaves(founds: seq<int>, k: nat): multiset<int>
    requires |founds| == 3 && k < 3
  {
    multiset{Rest(founds, k).0, Rest(founds, k).1}
  }

  /** For each of three atoms `pairs` holds a node over the other two, or 0 when no triple goes that way;
      at least one node is there. */
  ghost predicate Ready(t: Table, founds: seq<int>, pairs: seq<int>) {
    && Canonical(t) && |founds| == 3 && |pairs| == 3
    && (forall k :: 0 <= k < 3 ==> Atom(t, founds[k]))
    && (pairs[0] > 0 || pairs[1] > 0 || pairs[2] > 0)
    && (forall k :: 0 <= k < 3 ==> ReadyAt(t, founds, pairs[k], k))
  }

  ghost predicate ReadyAt(t: Table, founds: seq<int>, pair: int, k: nat)
    requires WellFormed(t) && |founds| == 3 && k < 3
  {
    if pair == 0 then forall i, p :: Over(t, i, founds[k], p) ==> Leaves(t, p) != RestLeaves(founds, k)
    else pair > 0 && Pair(t, pair) && Leaves(t, pair) == RestLeaves(founds, k)
  }

  lemma PairsFound(t: Table, founds: seq<int>, pairs: seq<int>)
    requires Canonical(t) && |founds| == 3 && |pairs| == 3
    requires forall k :: 0 <= k < 3 ==> Atom(t, founds[k])
    requires pairs[0] == FindEither(t, founds[1], founds[2])
    requires pairs[1] == FindEither(t, founds[0], founds[2])
    requires pairs[2] == FindEither(t, founds[0], founds[1])
    ensures pairs != [0, 0, 0] ==> Ready(t, founds, pairs)
  {
    assert pairs == [pairs[0], pairs[1], pairs[2]];
    forall k | 0 <= k < 3 ensures ReadyAt(t, founds, pairs[k], k) {
      FindPairCorrect(t, Rest(founds, k).0, Rest(founds, k).1);
    }
  }

  /** When no pair is there, no triple is either; inserting one pair keeps it that way. */
  lemma FirstPairInserted(t: Table, founds: seq<int>)
    requires Canonical(t) && |founds| == 3
    requires forall k :: 0 <= k < 3 ==> Atom(t, founds[k])
    requires FindEither(t, founds[1], founds[2]) == 0
    requires FindEither(t, founds[0], founds[2]) == 0
    requires FindEither(t, founds[0], founds[1]) == 0
    ensures Ready(t + [Entry(|t|, Condition(AND_KIND, founds[1], founds[2]))], founds, [|t|, 0, 0])
  {
    hide *;
    var c := Condition(AND_KIND, founds[1], founds[2]);
    var t' := t + [Entry(|t|, c)];
    CanonicalIsWellFormed(t);
    ShapeBounds(t);
    InsertPair(t, founds[1], founds[2]);
    NewContent(t, c);
    ExtendedShapes(t, c);
    RestIs(founds);
    FindPairCorrect(t, founds[0], founds[2]);
    StillNoTriple(t, t', founds, 1);
    FindPairCorrect(t, founds[0], founds[1]);
    StillNoTriple(t, t', founds, 2);
    PairIsReady(t', founds, |t|);
    NowReady(t', founds, [|t|, 0, 0]);
  }

  lemma RestIs(founds: seq<int>)
    requires |founds| == 3
    ensures RestLeaves(founds, 0) == multiset{founds[1], founds[2]}
    ensures RestLeaves(founds, 1) == multiset{founds[0], founds[2]}
    ensures RestLeaves(founds, 2) == multiset{founds[0], founds[1]}
  {
    assert Rest(founds, 0) == (founds[1], founds[2]);
    assert Rest(founds, 1) == (founds[0], founds[2]);
    assert Rest(founds, 2) == (founds[0], founds[1]);
    hide Rest;
  }

  lemma PairIsReady(t: Table, founds: seq<int>, pair: int)
    requires WellFormed(t) && |founds| == 3 && Represents(t, pair, [founds[1], founds[2]])
    ensures ReadyAt(t, founds, pair, 0)
  {
    hide Leaves, WellFormed, Pair;
    assert multiset([founds[1], founds[2]]) == RestLeaves(founds, 0);
  }

  lemma NewContent(t: Table, c: Condition)
    requires WellFormed(t + [Entry(|t|, c)])
    ensures forall i :: 0 <= i < |t| ==> t[i].content != c
  {
    var t' := t + [Entry(|t|, c)];
    forall i | 0 <= i < |t| ensures t[i].content != c {
      assert t'[i] == t[i] && t'[|t|].content == c;
    }
  }

  lemma StillNoTriple(t: Table, t': Table, founds: seq<int>, k: nat)
    requires WellFormed(t) && WellFormed(t') && |founds| == 3 && k < 3 && |t'| == |t| + 1
    requires forall i :: 0 <= i < |t| ==> (Pair(t, i) <==> Pair(t', i)) && Leaves(t', i) == Leaves(t, i)
    requires forall i :: Pair(t, i) ==> 0 < i < |t| && Leaves(t, i) != RestLeaves(founds, k)
    ensures ReadyAt(t', founds, 0, k)
  {
    hide Leaves, RestLeaves, Pair;
    forall i, p | Over(t', i, founds[k], p) ensures Leaves(t', p) != RestLeaves(founds, k) {
      assert p < i;
      assert Pair(t, p);
    }
  }

  lemma NowReady(t: Table, founds: seq<int>, pairs: seq<int>)
    requires Canonical(t) && WellFormed(t) && |founds| == 3 && |pairs| == 3 && pairs[0] > 0
    requires forall k :: 0 <= k < 3 ==> Atom(t, founds[k])
    requires ReadyAt(t, founds, pairs[0], 0) && ReadyAt(t, founds, pairs[1], 1) && ReadyAt(t, founds, pairs[2], 2)
    ensures Ready(t, founds, pairs)
  {
    hide ReadyAt, Canonical, WellFormed, Atom;
  }

  /** Looking for the node of a pair and the third atom. */
  lemma NodeFound(t: Table, founds: seq<int>, pairs: seq<int>, k: nat)
    requires Ready(t, founds, pairs) && k < 3 && pairs[k] > 0
    ensures WellFormed(t)
    ensures FindEither(t, pairs[k], founds[k]) == 0 ||
            Represents(t, FindEither(t, pairs[k], founds[k]), founds)
  {
    assert ReadyAt(t, founds, pairs[k], k);
    RestSplits(founds, k);
    NodeIsTriple(t, founds[k], pairs[k]);
  }

  lemma NodeIsTriple(t: Table, a: int, p: int)
    requires WellFormed(t) && Atom(t, a) && Pair(t, p)
    ensures var i := FindEither(t, p, a);
            i == 0 || (0 < i < |t| && Triple(t, i) && Leaves(t, i) == multiset{a} + Leaves(t, p))
  {
    hide Pair, Atom;
    FindCorrect(t, Condition(AND_KIND, p, a));
    FindCorrect(t, Condition(AND_KIND, a, p));
    AtomLeaves(t, a);
  }

  lemma AtomLeaves(t: Table, a: int)
    requires WellFormed(t) && Atom(t, a)
    ensures Leaves(t, a) == multiset{a}
  {
  }

  /** The children of a triple over three given atoms. */
  lemma TripleSplits(t: Table, i: int, founds: seq<int>) returns (k: nat, p: int)
    requires WellFormed(t) && Triple(t, i) && |founds| == 3 && Leaves(t, i) == multiset(founds)
    ensures k < 3 && Over(t, i, founds[k], p) && Leaves(t, p) == RestLeaves(founds, k)
  {
    var c := t[i].content;
    var a := if Atom(t, c.value1) then c.value1 else c.value2;
    p := if Atom(t, c.value1) then c.value2 else c.value1;
    assert Over(t, i, a, p) && Leaves(t, i) == multiset{a} + Leaves(t, p);
    assert a in multiset(founds);
    k :| 0 <= k < 3 && founds[k] == a;
    RestSplits(founds, k);
    Cancel(a, Leaves(t, p), RestLeaves(founds, k));
  }

  lemma NoTripleYet(t: Table, founds: seq<int>, pairs: seq<int>)
    requires Ready(t, founds, pairs)
    requires forall k :: 0 <= k < 3 && pairs[k] > 0 ==> FindEither(t, pairs[k], founds[k]) == 0
    ensures forall i :: Triple(t, i) ==> Leaves(t, i) != multiset(founds)
  {
    forall i | Triple(t, i) && Leaves(t, i) == multiset(founds) ensures false {
      var k, p := TripleSplits(t, i, founds);
      OverIsFound(t, founds, pairs, i, k, p);
    }
  }

  lemma OverIsFound(t: Table, founds: seq<int>, pairs: seq<int>, i: int, k: nat, p: int)
    requires Ready(t, founds, pairs) && k < 3
    requires Over(t, i, founds[k], p) && Leaves(t, p) == RestLeaves(founds, k)
    ensures pairs[k] > 0 && FindEither(t, pairs[k], founds[k]) > 0
  {
    assert ReadyAt(t, founds, pairs[k], k);
    assert pairs[k] == p;
    FindCorrect(t, Condition(AND_KIND, p, founds[k]));
    FindCorrect(t, Condition(AND_KIND, founds[k], p));
  }

  lemma NodeInserted(t: Table, founds: seq<int>, pairs: seq<int>, k: nat)
    requires Ready(t, founds, pairs) && k < 3 && pairs[k] > 0
    requires forall i :: Triple(t, i) ==> Leaves(t, i) != multiset(founds)
    ensures var t' := t + [Entry(|t|, Condition(AND_KIND, founds[k], pairs[k]))];
            Canonical(t') && WellFormed(t') && Represents(t', |t|, founds)
  {
    assert ReadyAt(t, founds, pairs[k], k);
    RestSplits(founds, k);
    InsertTriple(t, founds[k], pairs[k]);
  }

  lemma ReadyFacts(t: Table, founds: seq<int>, pairs: seq<int>)
    requires Ready(t, founds, pairs)
    ensures WellFormed(t) && Canonical(t) && |pairs| == 3
    ensures pairs[0] > 0 || pairs[1] > 0 || pairs[2] > 0
  {
  }

  lemma CanonicalIsWellFormed(t: Table)
    requires Canonical(t)
    ensures WellFormed(t)
  {
  }

  lemma FoundAfter(t: Table, t': Table, cs: seq<Condition>, k: nat)
    requires WellFormed(t) && Canonical(t') && Extends(t, t') && k < |cs|
    requires forall j :: 0 <= j < k ==> Find(t, cs[j]) > 0
    requires t' == (if Find(t, cs[k]) == 0 then t + [Entry(|t|, cs[k])] else t)
    ensures forall j :: 0 <= j < k + 1 ==> Find(t', cs[j]) > 0
  {
    forall j | 0 <= j < k ensures Find(t', cs[j]) > 0 {
      FindStable(t, t', cs[j]);
    }
    if Find(t, cs[k]) == 0 {
      assert t'[|t|].content == cs[k];
    }
    FindCorrect(t, cs[k]);
    FindCorrect(t', cs[k]);
  }

  lemma RowAtoms(t: Table, conds: seq<Condition>)
    requires WellFormed(t) && Interned(t, conds)
    ensures forall k :: 0 <= k < |Active(conds)| ==>
              Find(t, Active(conds)[k]) > 0 && Atom(t, Find(t, Active(conds)[k]))
    ensures |Active(conds)| <= |conds|
  {
    ActiveElements(conds);
    forall k | 0 <= k < |Active(conds)|
      ensures Find(t, Active(conds)[k]) > 0 && Atom(t, Find(t, Active(conds)[k]))
    {
      assert Active(conds)[k] in Active(conds);
      FindCorrect(t, Active(conds)[k]);
    }
  }

  lemma FindsAre(t: Table, conds: seq<Condition>, founds: seq<int>)
    requires |founds| == |Active(conds)|
    requires forall j :: 0 <= j < |founds| ==> founds[j] == Find(t, Active(conds)[j])
    ensures founds == Finds(t, Active(conds))
  {
  }

  lemma ExtendsSelf(t: Table)
    ensures Extends(t, t)
  {
  }

  lemma AtomRepresents(t: Table, a: int)
    requires WellFormed(t) && Atom(t, a)
    ensures Represents(t, a, [a])
  {
    AtomLeaves(t, a);
  }

  lemma RowIdIntro(t: Table, t': Table, conds: seq<Condition>, id: int)
    requires WellFormed(t) && WellFormed(t') && Extends(t, t') && Interned(t, conds)
    requires Represents(t', id, Finds(t, Active(conds)))
    ensures RowId(t', conds, id)
  {
    InternedStable(t, t', conds);
    RowAtoms(t, conds);
    forall k | 0 <= k < |Active(conds)| ensures Find(t', Active(conds)[k]) == Find(t, Active(conds)[k]) {
      FindStable(t, t', Active(conds)[k]);
    }
    assert Finds(t', Active(conds)) == Finds(t, Active(conds));
  }

  lemma ExtendsTwice(t0: Table, t1: Table, t2: Table)
    requires Extends(t0, t1) && Extends(t1, t2)
    ensures Extends(t0, t2)
  {
  }

  lemma EmittedNone(t: Table)
    ensures Emitted(t, [], [])
  {
  }

  lemma EmittedOne(t: Table, u: Update, place: Place)
    requires EmitsFor(t, u, place)
    ensures Emitted(t, [u], [place])
  {
  }

  lemma RowConditionsPositive(t: Table, conds: seq<Condition>)
    ensures forall c :: c in Active(conds) ==> c.kind > 0
    ensures Active(conds) == [] ==> Interned(t, conds)
  {
    ActiveElements(conds);
  }

  lemma InternedIntro(t: Table, conds: seq<Condition>)
    requires forall c :: c in Active(conds) ==> Find(t, c) > 0
    ensures Interned(t, conds)
  {
    ActiveElements(conds);
  }

  lemma RowsWithOne(db: string, name: string, row: Row, n: nat)
    ensures RowsWith(db, name, [row], n) == if |Active(row.conds)| == n then [Place(db, name, row)] else []
  {
    assert [row][..0] == [];
  }

  lemma RowsWithNone(db: string, name: string, n: nat)
    ensures RowsWith(db, name, [], n) == []
  {
  }

  lemma RowsWithNext(db: string, name: string, rows: seq<Row>, i: nat, n: nat)
    requires i < |rows|
    ensures RowsWith(db, name, rows[..i + 1], n) == RowsWith(db, name, rows[..i], n) + RowsWith(db, name, [rows[i]], n)
  {
    assert rows[..i + 1][..i] == rows[..i];
    RowsWithOne(db, name, rows[i], n);
  }

  lemma TableRows(table: SqlTable)
    requires table.Valid()
    ensures forall k :: 0 <= k < |table.rows| ==> 1 <= |table.rows[k].conds| <= 3
  {
  }

  lemma NoneInterned(t: Table)
    ensures AllInterned(t, []) && TablesInterned(t, [])
  {
  }

  lemma RowInterned(t: Table, rows: seq<Row>, i: nat, pass: nat)
    requires i < |rows| && (pass > 0 ==> AllInterned(t, rows))
    ensures pass > 0 ==> Interned(t, rows[i].conds)
  {
  }

  lemma InternedNext(t: Table, t': Table, rows: seq<Row>, i: nat, pass: nat)
    requires WellFormed(t) && WellFormed(t') && Extends(t, t') && i < |rows|
    requires if pass == 0 then AllInterned(t, rows[..i]) && Interned(t', rows[i].conds) else AllInterned(t, rows)
    ensures if pass == 0 then AllInterned(t', rows[..i + 1]) else AllInterned(t', rows)
  {
    forall k | 0 <= k < |rows| && (k < i || pass > 0) ensures Interned(t', rows[k].conds) {
      assert k < i ==> rows[..i][k] == rows[k];
      InternedStable(t, t', rows[k].conds);
    }
  }

  lemma PassTables(db: Database, pass: nat, t: Table)
    requires db.Valid()
    ensures forall k :: 0 <= k < |db.TablesInPass(pass)| ==> db.TablesInPass(pass)[k].Valid()
    ensures db.TablesInPass(0) == db.AllTables()
    ensures TablesInterned(t, db.AllTables()) ==> TablesInterned(t, db.TablesInPass(pass))
  {
    forall k | 0 <= k < |db.TablesInPass(pass)|
      ensures db.TablesInPass(pass)[k] in db.AllTables()
    {
    }
  }

  lemma InTablesNone(db: string, n: nat)
    ensures InTables(db, [], n) == []
  {
  }

  lemma InTablesNext(db: string, tables: seq<SqlTable>, i: nat, n: nat)
    requires i < |tables|
    ensures InTables(db, tables[..i + 1], n) ==
              InTables(db, tables[..i], n) + RowsWith(db, tables[i].name, tables[i].rows, n)
  {
    assert tables[..i + 1][..i] == tables[..i];
  }

  lemma TableInterned(t: Table, tables: seq<SqlTable>, i: nat, pass: nat)
    requires i < |tables| && (pass > 0 ==> TablesInterned(t, tables))
    ensures pass > 0 ==> AllInterned(t, tables[i].rows)
  {
  }

  lemma TablesInternedNext(t: Table, t': Table, tables: seq<SqlTable>, i: nat, pass: nat)
    requires WellFormed(t) && WellFormed(t') && Extends(t, t') && i < |tables|
    requires if pass == 0 then TablesInterned(t, tables[..i]) && AllInterned(t', tables[i].rows)
             else TablesInterned(t, tables)
    ensures if pass == 0 then TablesInterned(t', tables[..i + 1]) else TablesInterned(t', tables)
  {
    if pass == 0 {
      TablesInternedStable(t, t', tables[..i]);
      forall k | 0 <= k < i ensures AllInterned(t', tables[k].rows) {
        assert tables[k] == tables[..i][k];
      }
    } else {
      TablesInternedStable(t, t', tables);
    }
  }

  ghost predicate DatabasesInterned(t: Table, dbs: seq<Database>) {
    forall k :: 0 <= k < |dbs| ==> TablesInterned(t, dbs[k].AllTables())
  }

  lemma DatabasesStart(t: Table)
    ensures DatabasesInterned(t, [])
  {
  }

  lemma DatabaseInterned(t: Table, dbs: seq<Database>, j: nat, pass: nat)
    requires j < |dbs| && (pass > 0 ==> DatabasesInterned(t, dbs))
    ensures pass > 0 ==> TablesInterned(t, dbs[j].AllTables())
  {
  }

  lemma DatabasesInternedNext(t: Table, t': Table, dbs: seq<Database>, j: nat, pass: nat)
    requires WellFormed(t) && WellFormed(t') && Extends(t, t') && j < |dbs|
    requires DatabasesInterned(t, if pass == 0 then dbs[..j] else dbs)
    requires TablesInterned(t', dbs[j].AllTables())
    ensures DatabasesInterned(t', if pass == 0 then dbs[..j + 1] else dbs)
  {
    forall k | 0 <= k < |dbs| && (k < j || pass > 0) ensures TablesInterned(t', dbs[k].AllTables()) {
      assert k < j ==> dbs[..j][k] == dbs[k];
      TablesInternedStable(t, t', dbs[k].AllTables());
    }
  }

  lemma DueNone(dbs: seq<Database>)
    ensures DueUpTo(dbs, 0) == []
  {
  }

  lemma DuePassNone(pass: nat)
    ensures DueInPass([], pass) == []
  {
  }

  lemma DueNext(dbs: seq<Database>, j: nat, pass: nat)
    requires j < |dbs|
    ensures DueInPass(dbs[..j + 1], pass) ==
              DueInPass(dbs[..j], pass) +
              if pass == 0 then [] else InTables(dbs[j].name, dbs[j].TablesInPass(pass), pass)
  {
    assert dbs[..j + 1][..j] == dbs[..j];
  }

  lemma DueUpToNext(dbs: seq<Database>, pass: nat)
    ensures DueUpTo(dbs, pass + 1) == DueUpTo(dbs, pass) + DueInPass(dbs, pass)
  {
  }

  lemma {:induction false} InTablesConcat(db: string, a: seq<SqlTable>, b: seq<SqlTable>, n: nat)
    ensures InTables(db, a + b, n) == InTables(db, a, n) + InTables(db, b, n)
  {
    hide RowsWith;
    if b == [] {
      assert a + b == a;
    } else {
      var rest, last := b[..|b| - 1], b[|b| - 1];
      assert (a + b)[..|a + b| - 1] == a + rest && (a + b)[|a + b| - 1] == last;
      InTablesConcat(db, a, rest, n);
      assert InTables(db, a + b, n) == InTables(db, a + rest, n) + RowsWith(db, last.name, last.rows, n);
    }
  }

  lemma {:induction false} NarrowRows(db: string, name: string, rows: seq<Row>, n: nat)
    requires forall k :: 0 <= k < |rows| ==> |rows[k].conds| < n
    ensures RowsWith(db, name, rows, n) == []
  {
    if rows != [] {
      NarrowRows(db, name, rows[..|rows| - 1], n);
      ActiveElements(rows[|rows| - 1].conds);
    }
  }

  lemma {:induction false} NarrowTables(db: string, tables: seq<SqlTable>, n: nat)
    requires forall k :: 0 <= k < |tables| ==> tables[k].Valid() && tables[k].width < n
    ensures InTables(db, tables, n) == []
  {
    if tables != [] {
      NarrowTables(db, tables[..|tables| - 1], n);
      NarrowRows(db, tables[|tables| - 1].name, tables[|tables| - 1].rows, n);
    }
  }

  /** The tables a pass leaves out have no row with that many conditions. */
  lemma PassMissesNothing(db: Database, pass: nat)
    requires db.Valid() && 1 <= pass <= 3
    ensures InTables(db.name, db.TablesInPass(pass), pass) == InTables(db.name, db.AllTables(), pass)
  {
    hide InTables, RowsWith;
    var loot, menu, option := db.LootTables(), [db.gossipMenu], [db.gossipMenuOption];
    assert db.AllTables() == loot + (menu + option);
    InTablesConcat(db.name, loot, menu + option, pass);
    InTablesConcat(db.name, menu, option, pass);
    assert forall k :: 0 <= k < |loot| ==> db.AllTables()[k] == loot[k];
    assert db.AllTables()[|loot|] == db.gossipMenu;
    if pass >= 2 {
      NarrowTables(db.name, loot, pass);
    }
    if pass == 3 {
      NarrowTables(db.name, menu, pass);
      assert db.TablesInPass(pass) == option;
    } else if pass == 2 {
      assert db.TablesInPass(pass) == menu + option;
    } else {
      assert db.TablesInPass(pass) == loot + menu + option;
    }
  }

  lemma {:induction false} PassesCover(dbs: seq<Database>)
    requires forall k :: 0 <= k < |dbs| ==> dbs[k].Valid()
    ensures multiset(DueInPass(dbs, 1)) + multiset(DueInPass(dbs, 2)) + multiset(DueInPass(dbs, 3)) ==
            multiset(Conditioned(dbs))
  {
    if dbs != [] {
      PassesCover(dbs[..|dbs| - 1]);
      var db := dbs[|dbs| - 1];
      PassMissesNothing(db, 1);
      PassMissesNothing(db, 2);
      PassMissesNothing(db, 3);
    }
  }

  lemma {:induction false} NothingDueFirst(dbs: seq<Database>)
    ensures DueInPass(dbs, 0) == []
  {
    if dbs != [] {
      NothingDueFirst(dbs[..|dbs| - 1]);
    }
  }

  lemma UnfoldDue(dbs: seq<Database>)
    ensures multiset(DueUpTo(dbs, 4)) ==
            multiset(DueInPass(dbs, 1)) + multiset(DueInPass(dbs, 2)) + multiset(DueInPass(dbs, 3))
  {
    hide *;
    DueNone(dbs);
    NothingDueFirst(dbs);
    DueUpToNext(dbs, 0);
    DueUpToNext(dbs, 1);
    DueUpToNext(dbs, 2);
    DueUpToNext(dbs, 3);
    assert DueUpTo(dbs, 1) == [];
    assert DueUpTo(dbs, 2) == DueInPass(dbs, 1);
  }

  /** Over the four passes every row with at least one condition is due exactly once, and no other row is. */
  lemma EveryRowOnce(dbs: seq<Database>)
    requires forall k :: 0 <= k < |dbs| ==> dbs[k].Valid()
    ensures multiset(DueUpTo(dbs, 4)) == multiset(Conditioned(dbs))
  {
    hide *;
    PassesCover(dbs);
    UnfoldDue(dbs);
  }

  // ---------------------------------------------------------------- which rows these are

  lemma ConditionCounts(conds: seq<Condition>)
    ensures (exists c :: c in conds && c.kind > 0) <==> |Active(conds)| > 0
  {
    ActiveElements(conds);
    PositiveCounts(conds);
    if c :| c in conds && c.kind > 0 {
      assert multiset(Positive(conds))[c] == multiset(conds)[c] > 0;
      assert c in Positive(conds);
    }
    if |Active(conds)| > 0 {
      assert Active(conds)[0] in Active(conds);
    }
  }

  lemma {:induction false} RowsWithHas(db: string, name: string, rows: seq<Row>, n: nat, p: Place)
    ensures p in RowsWith(db, name, rows, n) <==>
              p.database == db && p.table == name && p.row in rows && |Active(p.row.conds)| == n
  {
    if rows != [] {
      var front, last := rows[..|rows| - 1], rows[|rows| - 1];
      assert rows == front + [last];
      RowsWithHas(db, name, front, n, p);
      hide Active;
    }
  }

  ghost predicate HasPlace(table: SqlTable, p: Place) { table.name == p.table && p.row in table.rows }

  lemma {:induction false} InTablesHas(db: string, tables: seq<SqlTable>, n: nat, p: Place)
    ensures p in InTables(db, tables, n) <==>
              p.database == db && |Active(p.row.conds)| == n && exists table :: table in tables && HasPlace(table, p)
  {
    if tables != [] {
      var front, last := tables[..|tables| - 1], tables[|tables| - 1];
      assert tables == front + [last];
      InTablesHas(db, front, n, p);
      RowsWithHas(db, last.name, last.rows, n, p);
      hide Active, RowsWith;
      assert HasPlace(last, p) ==> exists table :: table in tables && HasPlace(table, p);
    }
  }

  /** The tables of the passes are those of the expansion, and no more of them than there are. */
  lemma TablesAre(db: Database)
    ensures forall table :: table in db.AllTables() <==> db.Offers(table)
    ensures |db.AllTables()| ==
              |db.loot| + 2 + (if db.expansion >= 1 then 1 else 0) + (if db.expansion >= 2 then 2 else 0)
  {
    forall table ensures table in db.AllTables() <==> db.Offers(table) {
      OffersOne(db, table);
    }
  }

  lemma OffersOne(db: Database, table: SqlTable)
    ensures table in db.AllTables() <==> db.Offers(table)
  {
  }

  ghost predicate PlaceOf(dbs: seq<Database>, p: Place, db: Database, table: SqlTable) {
    db in dbs && db.name == p.database && db.Offers(table) && HasPlace(table, p)
  }

  lemma WideEnough(db: Database, table: SqlTable, row: Row)
    requires db.Valid() && db.Offers(table) && row in table.rows
    ensures |Active(row.conds)| <= 3
  {
    TablesAre(db);
    ActiveElements(row.conds);
    var k :| 0 <= k < |db.AllTables()| && db.AllTables()[k] == table;
    hide Active;
  }

  lemma {:induction false} ConditionedHas(dbs: seq<Database>, p: Place)
    requires forall db :: db in dbs ==> db.Valid()
    ensures p in Conditioned(dbs) <==>
              HasCondition(p.row) && exists db, table :: PlaceOf(dbs, p, db, table)
  {
    if dbs != [] {
      var front, db := dbs[..|dbs| - 1], dbs[|dbs| - 1];
      assert dbs == front + [db];
      ConditionedHas(front, p);
      ConditionCounts(p.row.conds);
      OneDatabase(db, p);
      hide Active, InTables, Database.AllTables, Database.Offers, Database.Valid, HasPlace;
      assert forall d, table :: PlaceOf(dbs, p, d, table) <==>
                                  PlaceOf(front, p, d, table) || PlaceOf([db], p, d, table);
    }
  }

  lemma OneDatabase(db: Database, p: Place)
    requires db.Valid()
    ensures p in InTables(db.name, db.AllTables(), 1) || p in InTables(db.name, db.AllTables(), 2) ||
            p in InTables(db.name, db.AllTables(), 3) <==>
              |Active(p.row.conds)| > 0 && exists d, table :: PlaceOf([db], p, d, table)
  {
    InTablesHas(db.name, db.AllTables(), 1, p);
    InTablesHas(db.name, db.AllTables(), 2, p);
    InTablesHas(db.name, db.AllTables(), 3, p);
    TablesAre(db);
    hide Active, InTables, Database.AllTables, Database.Offers;
    if table :| table in db.AllTables() && HasPlace(table, p) {
      WideEnough(db, table, p.row);
      assert p.database == db.name ==> PlaceOf([db], p, db, table);
    }
    hide Database.Valid;
    if d, table :| PlaceOf([db], p, d, table) {
      assert d == db && table in db.AllTables();
    }
  }

  lemma WantedIsDue(t: Table, us: seq<Update>, dbs: seq<Database>, places: seq<Place>, db: Database, table: SqlTable,
                    row: Row)
    requires forall d :: d in dbs ==> d.Valid()
    requires Emitted(t, us, places) && (forall p :: p in places <==> p in Conditioned(dbs))
    requires Wanted(dbs, db, table, row)
    ensures Written(t, us, db, table, row)
  {
    hide Conditioned, Database.Valid, Database.Offers, HasCondition, RowId;
    var p := Place(db.name, table.name, row);
    ConditionedHas(dbs, p);
    assert PlaceOf(dbs, p, db, table);
    var k :| 0 <= k < |places| && places[k] == p;
    assert EmitsFor(t, us[k], places[k]);
    assert us[k] in us && Writes(t, us[k], db, table, row);
  }

  lemma DueIsWanted(t: Table, us: seq<Update>, dbs: seq<Database>, places: seq<Place>, k: nat)
    requires forall d :: d in dbs ==> d.Valid()
    requires Emitted(t, us, places) && (forall p :: p in places <==> p in Conditioned(dbs))
    requires k < |us|
    ensures Justified(t, us[k], dbs)
  {
    hide Conditioned, Database.Valid, Database.Offers, HasCondition, RowId;
    var p := places[k];
    assert EmitsFor(t, us[k], p);
    ConditionedHas(dbs, p);
    var db, table :| PlaceOf(dbs, p, db, table);
    assert Wanted(dbs, db, table, p.row) && Writes(t, us[k], db, table, p.row);
  }

  /** Every wanted row is written, and nothing else is. */
  lemma WritesExactly(t: Table, us: seq<Update>, dbs: seq<Database>)
    requires forall db :: db in dbs ==> db.Valid()
    requires Emitted(t, us, DueUpTo(dbs, 4)) && multiset(DueUpTo(dbs, 4)) == multiset(Conditioned(dbs))
    ensures forall db, table, row :: Wanted(dbs, db, table, row) ==> Written(t, us, db, table, row)
    ensures forall u :: u in us ==> Justified(t, u, dbs)
  {
    hide *;
    var places := DueUpTo(dbs, 4);
    forall p ensures p in places <==> p in Conditioned(dbs) {
      assert p in multiset(places) <==> p in multiset(Conditioned(dbs));
    }
    forall db, table, row | Wanted(dbs, db, table, row) ensures Written(t, us, db, table, row) {
      WantedIsDue(t, us, dbs, places, db, table, row);
    }
    forall u | u in us ensures Justified(t, u, dbs) {
      var k :| 0 <= k < |us| && us[k] == u;
      DueIsWanted(t, us, dbs, places, k);
    }
  }

  class Converter {
    var linkedList: Table
    var oldMax: int
    var updates: seq<Update>

    ghost predicate Valid()
      reads this`linkedList, this`oldMax
    {
      Canonical(linkedList) && oldMax == |linkedList| - 1
    }

    lemma ValidTable()
      requires Valid()
      ensures Canonical(linkedList) && WellFormed(linkedList)
    {
    }

    constructor ()
      ensures Valid() && linkedList == [INITIAL_FILL] && updates == []
    {
      linkedList, oldMax, updates := [INITIAL_FILL], 0, [];
    }

    method InsertCondition(c: Condition)
      modifies this`linkedList, this`oldMax
      ensures oldMax == old(oldMax) + 1
      ensures linkedList == old(linkedList) + [Entry(old(oldMax) + 1, c)]
    {
      oldMax := oldMax + 1;
      linkedList := linkedList + [Entry(oldMax, c)];
    }

    method FindCondition(c: Condition) returns (id: int)
      ensures id == Find(linkedList, c)
    {
      for i := 0 to |linkedList|
        invariant Find(linkedList, c) == FindFrom(linkedList, i, c)
      {
        if linkedList[i].content == c {
          return linkedList[i].id;
        }
      }
      return 0;
    }

    /** Search one order, then the other. */
    method FindInEitherOrder(a: int, b: int) returns (id: int)
      ensures id == FindEither(linkedList, a, b)
    {
      id := FindCondition(Condition(AND_KIND, a, b));
      if id == 0 {
        id := FindCondition(Condition(AND_KIND, b, a));
      }
    }

    /** The node of a row with two conditions. */
    method PairId(a: int, b: int) returns (id: int)
      requires Valid() && Atom(linkedList, a) && Atom(linkedList, b)
      modifies this`linkedList, this`oldMax
      ensures Valid() && Extends(old(linkedList), linkedList)
      ensures Represents(linkedList, id, [a, b])
    {
      hide Canonical, WellFormed, Leaves, Pair, Triple, Atom, Shape, Represents, Find, FindEither;
      CanonicalIsWellFormed(linkedList);
      FindPairCorrect(linkedList, b, a);
      id := FindInEitherOrder(b, a);
      if id == 0 {
        InsertPair(linkedList, b, a);
        InsertCondition(Condition(AND_KIND, b, a));
        id := oldMax;
      }
      RepresentsSwap(linkedList, id, b, a);
    }

    /** The node of a row with three conditions: any two may already be joined, in any order. */
    method TripleId(founds: seq<int>) returns (id: int)
      requires Valid() && |founds| == 3
      requires forall k :: 0 <= k < 3 ==> Atom(linkedList, founds[k])
      modifies this`linkedList, this`oldMax
      ensures Valid() && Extends(old(linkedList), linkedList)
      ensures Represents(linkedList, id, founds)
    {
      hide Canonical, WellFormed, Leaves, Pair, Triple, Atom, Shape, Represents, Find, FindEither, Ready;
      CanonicalIsWellFormed(linkedList);
      var notSearched := [0, 0, 0];
      var found := FindInEitherOrder(founds[0], founds[1]);
      notSearched := notSearched[2 := found];
      found := FindInEitherOrder(founds[0], founds[2]);
      notSearched := notSearched[1 := found];
      found := FindInEitherOrder(founds[1], founds[2]);
      notSearched := notSearched[0 := found];
      PairsFound(linkedList, founds, notSearched);
      if notSearched == [0, 0, 0] {
        assert notSearched[0] == notSearched[1] == notSearched[2] == 0;
        FirstPairInserted(linkedList, founds);
        InsertCondition(Condition(AND_KIND, founds[1], founds[2]));
        notSearched := notSearched[0 := oldMax];
        assert notSearched == [oldMax, 0, 0];
      }
      assert Ready(linkedList, founds, notSearched);
      ReadyFacts(linkedList, founds, notSearched);
      id := 0;
      var i := 0;
      ghost var ready := linkedList;
      while i < 3 && id == 0
        invariant 0 <= i <= 3
        invariant linkedList == ready && oldMax == |linkedList| - 1
        invariant id == 0 || Represents(linkedList, id, founds)
        invariant id == 0 ==> forall k :: 0 <= k < i && notSearched[k] > 0 ==>
                    FindEither(linkedList, notSearched[k], founds[k]) == 0
      {
        if notSearched[i] > 0 {
          NodeFound(linkedList, founds, notSearched, i);
          id := FindInEitherOrder(notSearched[i], founds[i]);
        }
        i := i + 1;
      }
      if id == 0 {
        NoTripleYet(linkedList, founds, notSearched);
        i := if notSearched[0] > 0 then 0 else if notSearched[1] > 0 then 1 else 2;
        NodeInserted(linkedList, founds, notSearched, i);
        InsertCondition(Condition(AND_KIND, founds[i], notSearched[i]));
        id := oldMax;
      }
    }

    /** Pass 0: every condition of the row gets an atom. */
    method InternRow(cs: seq<Condition>)
      requires Valid() && forall c :: c in cs ==> c.kind > 0
      modifies this`linkedList, this`oldMax
      ensures Valid() && Extends(old(linkedList), linkedList)
      ensures forall c :: c in cs ==> Find(linkedList, c) > 0
    {
      hide Canonical, WellFormed, Find, Atom;
      for k := 0 to |cs|
        invariant Valid() && Extends(old(linkedList), linkedList)
        invariant forall j :: 0 <= j < k ==> Find(linkedList, cs[j]) > 0
      {
        ghost var t := linkedList;
        CanonicalIsWellFormed(t);
        var id := FindCondition(cs[k]);
        if id == 0 {
          InsertAtom(t, cs[k]);
          InsertCondition(cs[k]);
        }
        FoundAfter(t, linkedList, cs, k);
      }
    }

    /** Later passes: the node for a row whose conditions all have atoms. */
    method RowNode(conds: seq<Condition>, cs: seq<Condition>) returns (id: int)
      requires Valid() && 1 <= |conds| <= 3 && cs == Active(conds) && |cs| > 0
      requires Interned(linkedList, conds)
      modifies this`linkedList, this`oldMax
      ensures Valid() && Extends(old(linkedList), linkedList)
      ensures RowId(linkedList, conds, id)
    {
      hide *;
      ghost var t := linkedList;
      ValidTable();
      ExtendsSelf(t);
      RowAtoms(t, conds);
      var founds, countFound := [], 0;
      for k := 0 to |cs|
        invariant countFound == k == |founds|
        invariant linkedList == t && Valid()
        invariant forall j :: 0 <= j < k ==> founds[j] == Find(t, cs[j])
      {
        var found := FindCondition(cs[k]);
        founds := founds + [found];
        if found > 0 {
          countFound := countFound + 1;
        }
      }
      FindsAre(t, conds, founds);
      if countFound != |cs| {
        assert false;  // the branch that prints "An error happened" is never taken
      }
      if |cs| == 1 {
        id := founds[0];
        AtomRepresents(t, id);
        assert founds == [id];
      } else if |cs| == 2 {
        id := PairId(founds[0], founds[1]);
        assert founds == [founds[0], founds[1]];
      } else {
        id := TripleId(founds);
      }
      ValidTable();
      RowIdIntro(t, linkedList, conds, id);
    }

    /** One row of one table in one pass. */
    method ProgressRow(db: string, name: string, row: Row, pass: nat)
      requires Valid() && 1 <= |row.conds| <= 3
      requires pass > 0 ==> Interned(linkedList, row.conds)
      modifies this
      ensures Valid() && Extends(old(linkedList), linkedList)
      ensures pass == 0 ==> Interned(linkedList, row.conds)
      ensures old(updates) <= updates
      ensures Emitted(linkedList, updates[|old(updates)|..], if pass == 0 then [] else RowsWith(db, name, [row], pass))
    {
      hide *;
      ghost var t := linkedList;
      ValidTable();
      ExtendsSelf(t);
      var cs := RowConditions(row.conds);
      RowsWithOne(db, name, row, pass);
      EmittedNone(t);
      RowConditionsPositive(t, row.conds);
      assert updates[|updates|..] == [];
      if |cs| == 0 {
        return;
      }
      if pass == 0 {
        InternRow(cs);
        InternedIntro(linkedList, row.conds);
        EmittedNone(linkedList);
        return;
      }
      if pass != |cs| {
        return;
      }
      var id := RowNode(row.conds, cs);
      updates := updates + [Update(db, name, row.key1, row.key2, id)];
      EmittedOne(linkedList, Update(db, name, row.key1, row.key2, id), Place(db, name, row));
    }

    method ProgressTable(db: string, table: SqlTable, pass: nat)
      requires Valid() && table.Valid()
      requires pass > 0 ==> AllInterned(linkedList, table.rows)
      modifies this
      ensures Valid() && Extends(old(linkedList), linkedList)
      ensures pass == 0 ==> AllInterned(linkedList, table.rows)
      ensures old(updates) <= updates
      ensures Emitted(linkedList, updates[|old(updates)|..],
                      if pass == 0 then [] else RowsWith(db, table.name, table.rows, pass))
    {
      hide *;
      var rows := table.rows;
      ghost var t, n := linkedList, |updates|;
      ValidTable();
      TableRows(table);
      ExtendsSelf(t);
      EmittedNone(t);
      RowsWithNone(db, table.name, pass);
      NoneInterned(t);
      assert rows[..0] == [] && updates[n..] == [];
      for i := 0 to |rows|
        invariant Valid() && Extends(t, linkedList)
        invariant pass == 0 ==> AllInterned(linkedList, rows[..i])
        invariant pass > 0 ==> AllInterned(linkedList, rows)
        invariant n <= |updates| && updates[..n] == old(updates)
        invariant Emitted(linkedList, updates[n..], if pass == 0 then [] else RowsWith(db, table.name, rows[..i], pass))
      {
        ghost var ti, ui := linkedList, updates;
        ValidTable();
        RowInterned(ti, rows, i, pass);
        ProgressRow(db, table.name, rows[i], pass);
        ValidTable();
        RowsWithNext(db, table.name, rows, i, pass);
        EmittedMore(ti, linkedList, ui[n..], updates[|ui|..],
                    if pass == 0 then [] else RowsWith(db, table.name, rows[..i], pass),
                    if pass == 0 then [] else RowsWith(db, table.name, [rows[i]], pass));
        assert updates[n..] == ui[n..] + updates[|ui|..];
        ExtendsTwice(t, ti, linkedList);
        InternedNext(ti, linkedList, rows, i, pass);
      }
      assert rows[..|rows|] == rows;
    }

    method DoTables(db: Database, pass: nat)
      requires Valid() && db.Valid()
      requires pass > 0 ==> TablesInterned(linkedList, db.AllTables())
      modifies this
      ensures Valid() && Extends(old(linkedList), linkedList)
      ensures TablesInterned(linkedList, db.AllTables())
      ensures old(updates) <= updates
      ensures Emitted(linkedList, updates[|old(updates)|..],
                      if pass == 0 then [] else InTables(db.name, db.TablesInPass(pass), pass))
    {
      hide *;
      var tables := db.TablesInPass(pass);
      ghost var t, n := linkedList, |updates|;
      ValidTable();
      PassTables(db, pass, t);
      ExtendsSelf(t);
      EmittedNone(t);
      NoneInterned(t);
      InTablesNone(db.name, pass);
      assert tables[..0] == [] && updates[n..] == [];
      for i := 0 to |tables|
        invariant Valid() && Extends(t, linkedList)
        invariant pass == 0 ==> TablesInterned(linkedList, tables[..i])
        invariant pass > 0 ==> TablesInterned(linkedList, db.AllTables()) && TablesInterned(linkedList, tables)
        invariant n <= |updates| && updates[..n] == old(updates)
        invariant Emitted(linkedList, updates[n..], if pass == 0 then [] else InTables(db.name, tables[..i], pass))
      {
        ghost var ti, ui := linkedList, updates;
        ValidTable();
        TableInterned(ti, tables, i, pass);
        ProgressTable(db.name, tables[i], pass);
        ValidTable();
        InTablesNext(db.name, tables, i, pass);
        EmittedMore(ti, linkedList, ui[n..], updates[|ui|..],
                    if pass == 0 then [] else InTables(db.name, tables[..i], pass),
                    if pass == 0 then [] else RowsWith(db.name, tables[i].name, tables[i].rows, pass));
        assert updates[n..] == ui[n..] + updates[|ui|..];
        ExtendsTwice(t, ti, linkedList);
        TablesInternedNext(ti, linkedList, tables, i, pass);
        if pass > 0 {
          TablesInternedStable(ti, linkedList, db.AllTables());
        }
      }
      assert tables[..|tables|] == tables;
    }

    /** The four passes over all databases: exactly the rows with conditions are updated, each once, and
        each with an id that stands for its conditions in the final table. */
    method Convert(dbs: seq<Database>)
      requires Valid() && updates == []
      requires forall k :: 0 <= k < |dbs| ==> dbs[k].Valid()
      modifies this
      ensures Valid() && Extends(old(linkedList), linkedList)
      ensures Emitted(linkedList, updates, DueUpTo(dbs, 4))
      ensures multiset(DueUpTo(dbs, 4)) == multiset(Conditioned(dbs))
      ensures forall db, table, row :: Wanted(dbs, db, table, row) ==> Written(linkedList, updates, db, table, row)
      ensures forall u :: u in updates ==> Justified(linkedList, u, dbs)
    {
      hide *;
      ghost var t := linkedList;
      ValidTable();
      ExtendsSelf(t);
      EmittedNone(t);
      DueNone(dbs);
      DatabasesStart(t);
      for pass := 0 to 4
        invariant Valid() && Extends(t, linkedList)
        invariant Emitted(linkedList, updates, DueUpTo(dbs, pass))
        invariant DatabasesInterned(linkedList, if pass == 0 then [] else dbs)
      {
        DuePassNone(pass);
        ghost var tp, up := linkedList, updates;
        assert dbs[..0] == [] && updates[|up|..] == [];
        ValidTable();
        ExtendsSelf(tp);
        EmittedNone(tp);
        DatabasesStart(tp);
        for j := 0 to |dbs|
          invariant Valid() && Extends(tp, linkedList)
          invariant DatabasesInterned(linkedList, if pass == 0 then dbs[..j] else dbs)
          invariant |up| <= |updates| && updates[..|up|] == up
          invariant Emitted(linkedList, updates[|up|..], DueInPass(dbs[..j], pass))
        {
          ghost var tj, uj := linkedList, updates;
          ValidTable();
          DatabaseInterned(tj, dbs, j, pass);
          DoTables(dbs[j], pass);
          ValidTable();
          DueNext(dbs, j, pass);
          EmittedMore(tj, linkedList, uj[|up|..], updates[|uj|..], DueInPass(dbs[..j], pass),
                      if pass == 0 then [] else InTables(dbs[j].name, dbs[j].TablesInPass(pass), pass));
          assert updates[|up|..] == uj[|up|..] + updates[|uj|..];
          ExtendsTwice(tp, tj, linkedList);
          DatabasesInternedNext(tj, linkedList, dbs, j, pass);
        }
        assert dbs[..|dbs|] == dbs && updates == up + updates[|up|..];
        ValidTable();
        EmittedMore(tp, linkedList, up, updates[|up|..], DueUpTo(dbs, pass), DueInPass(dbs, pass));
        DueUpToNext(dbs, pass);
        ExtendsTwice(t, tp, linkedList);
      }
      EveryRowOnce(dbs);
      WritesExactly(linkedList, updates, dbs);
    }
  }
}
