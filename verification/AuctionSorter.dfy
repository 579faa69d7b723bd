/** The multi-column comparator of an auction list.  `Before` says what it computes; the question is for
    which lists it is the strict weak order that a sort needs. */
module AuctionSorter {
  import opened Auctions

  const MAX_AUCTION_SORT := 12
  const END_OF_SORT: bv8 := 12
  const AUCTION_SORT_REVERSED: bv8 := 0x10
  const COLUMN_MASK: bv8 := 0xEF

  /** What a column reads of an item prototype; the name is the one the viewing player sees. */
  datatype Proto = Proto(requiredLevel: nat, quality: nat, name: seq<nat>)
  type Protos = map<nat, Proto>

  datatype Listing = Listing(entry: Entry, itemTemplate: nat, itemCount: nat, ownerName: seq<nat>)

  // ---------------------------------------------------------------- columns

  function Compare(x: int, y: int): int { if x < y then -1 else if x > y then 1 else 0 }

  function CompareNames(s: seq<int>, t: seq<int>): int {
    if s == [] then (if t == [] then 0 else -1)
    else if t == [] then 1
    else if s[0] != t[0] then Compare(s[0], t[0])
    else CompareNames(s[1..], t[1..])
  }

  function OfferedBid(e: Entry): nat { if e.bid != 0 then e.bid else e.startbid }

  function CompareEntry(protos: Protos, column: bv8, a: Listing, b: Listing): int {
    match column
    case 0 =>
      if a.itemTemplate !in protos || b.itemTemplate !in protos then 0
      else Compare(protos[a.itemTemplate].requiredLevel, protos[b.itemTemplate].requiredLevel)
    case 1 =>
      if a.itemTemplate !in protos || b.itemTemplate !in protos then 0
      else Compare(protos[a.itemTemplate].quality, protos[b.itemTemplate].quality)
    case 2 =>
      if a.entry.buyout != b.entry.buyout then Compare(a.entry.buyout, b.entry.buyout)
      else Compare(a.entry.bid, b.entry.bid)
    case 3 => Compare(a.entry.expireTime, b.entry.expireTime)
    case 4 => Compare(a.entry.bidder, b.entry.bidder)
    case 5 =>
      if a.itemTemplate !in protos || b.itemTemplate !in protos then 0
      else CompareNames(protos[a.itemTemplate].name, protos[b.itemTemplate].name)
    case 6 =>
      if OfferedBid(a.entry) != OfferedBid(b.entry) then Compare(OfferedBid(a.entry), OfferedBid(b.entry))
      else Compare(a.entry.buyout, b.entry.buyout)
    case 7 => CompareNames(a.ownerName, b.ownerName)
    case 8 => Compare(OfferedBid(a.entry), OfferedBid(b.entry))
    case 9 => Compare(a.itemCount, b.itemCount)
    case 10 => Compare(a.entry.buyout, b.entry.buyout)
    case _ => 0
  }

  // ---------------------------------------------------------------- what the columns sort by

  ghost predicate Precedes(s: seq<int>, t: seq<int>) {
    exists k :: 0 <= k <= |s| && k <= |t| && s[..k] == t[..k] && k < |t| && (k == |s| || s[k] < t[k])
  }

  /** The comparison of names is the order of the dictionary. */
  lemma {:induction false} NamesDecide(s: seq<int>, t: seq<int>)
    ensures CompareNames(s, t) < 0 <==> Precedes(s, t)
    ensures CompareNames(s, t) > 0 <==> Precedes(t, s)
  {
    if s != [] && t != [] && s[0] == t[0] {
      NamesDecide(s[1..], t[1..]);
      HeadsAgree(s, t);
      HeadsAgree(t, s);
    } else {
      if s == [] && t != [] { assert s[..0] == t[..0]; }
      if t == [] && s != [] { assert s[..0] == t[..0]; }
      if s != [] && t != [] { assert s[..0] == t[..0]; }
      HeadsDiffer(s, t);
      HeadsDiffer(t, s);
    }
  }

  lemma HeadsAgree(s: seq<int>, t: seq<int>)
    requires s != [] && t != [] && s[0] == t[0]
    ensures Precedes(s, t) <==> Precedes(s[1..], t[1..])
  {
    if k :| 0 <= k <= |s| && k <= |t| && s[..k] == t[..k] && k < |t| && (k == |s| || s[k] < t[k]) {
      assert k > 0;
      assert s[1..][..k - 1] == s[..k][1..] && t[1..][..k - 1] == t[..k][1..];
      assert Precedes(s[1..], t[1..]);
    }
    if k :| 0 <= k <= |s[1..]| && k <= |t[1..]| && s[1..][..k] == t[1..][..k] && k < |t[1..]| &&
            (k == |s[1..]| || s[1..][k] < t[1..][k]) {
      assert s[..k + 1] == [s[0]] + s[1..][..k] && t[..k + 1] == [t[0]] + t[1..][..k];
      assert Precedes(s, t);
    }
  }

  lemma SameHead(s: seq<int>, t: seq<int>, k: nat)
    requires k <= |s| && k <= |t| && s[..k] == t[..k]
    ensures k > 0 ==> s[0] == t[0]
  {
    if k > 0 {
      assert s[..k][0] == s[0] && t[..k][0] == t[0];
    }
  }

  lemma HeadsDiffer(s: seq<int>, t: seq<int>)
    requires s == [] || t == [] || s[0] != t[0]
    ensures Precedes(s, t) <==> t != [] && (s == [] || s[0] < t[0])
  {
    if k :| 0 <= k <= |s| && k <= |t| && s[..k] == t[..k] && k < |t| && (k == |s| || s[k] < t[k]) {
      SameHead(s, t, k);
    }
    if t != [] && (s == [] || s[0] < t[0]) {
      assert s[..0] == t[..0];
    }
  }

  /** What an auction is sorted by in a column, the more important number first: required level, quality, buyout
      and bid, time, bidder, name, what the next bidder sees and buyout, owner, what the next bidder sees, count,
      buyout. */
  ghost function KeyOf(protos: Protos, column: bv8, a: Listing): seq<int>
    requires column in {0, 1, 5} ==> a.itemTemplate in protos
  {
    var e := a.entry;
    match column
    case 0 => [protos[a.itemTemplate].requiredLevel]
    case 1 => [protos[a.itemTemplate].quality]
    case 2 => [e.buyout, e.bid]
    case 3 => [e.expireTime]
    case 4 => [e.bidder]
    case 5 => protos[a.itemTemplate].name
    case 6 => [if e.bid == 0 then e.startbid else e.bid, e.buyout]
    case 7 => a.ownerName
    case 8 => [if e.bid == 0 then e.startbid else e.bid]
    case 9 => [a.itemCount]
    case 10 => [e.buyout]
    case _ => []
  }

  ghost predicate HasKey(protos: Protos, column: bv8, a: Listing) {
    column in {0, 1, 5} ==> a.itemTemplate in protos
  }

  lemma OneKey(x: int, y: int)
    ensures CompareNames([x], [y]) == Compare(x, y)
  {
  }

  lemma TwoKeys(x: int, x': int, y: int, y': int)
    ensures CompareNames([x, x'], [y, y']) == if x != y then Compare(x, y) else Compare(x', y')
  {
    assert [x, x'][1..] == [x'] && [y, y'][1..] == [y'];
    OneKey(x', y');
  }

  lemma KeysDecide(protos: Protos, column: bv8, a: Listing, b: Listing)
    requires HasKey(protos, column, a) && HasKey(protos, column, b)
    ensures CompareEntry(protos, column, a, b) == CompareNames(KeyOf(protos, column, a), KeyOf(protos, column, b))
  {
    var e, f := a.entry, b.entry;
    var x, y := OfferedBid(e), OfferedBid(f);
    hide CompareNames, Compare;
    match column {
      case 0 => OneKey(protos[a.itemTemplate].requiredLevel, protos[b.itemTemplate].requiredLevel);
      case 1 => OneKey(protos[a.itemTemplate].quality, protos[b.itemTemplate].quality);
      case 2 => TwoKeys(e.buyout, e.bid, f.buyout, f.bid);
      case 3 => OneKey(e.expireTime, f.expireTime);
      case 4 => OneKey(e.bidder, f.bidder);
      case 6 => TwoKeys(x, e.buyout, y, f.buyout);
      case 8 => OneKey(x, y);
      case 9 => OneKey(a.itemCount, b.itemCount);
      case 10 => OneKey(e.buyout, f.buyout);
      case 5 =>
      case 7 =>
      case _ => NamesEqual([], []);
    }
  }

  /** In a column an auction comes first by its key, and one without prototype is level with all in those that
      need it. */
  ghost predicate First(protos: Protos, column: bv8, a: Listing, b: Listing) {
    && HasKey(protos, column, a) && HasKey(protos, column, b)
    && Precedes(KeyOf(protos, column, a), KeyOf(protos, column, b))
  }

  lemma ColumnDecides(protos: Protos, column: bv8, a: Listing, b: Listing)
    ensures CompareEntry(protos, column, a, b) < 0 <==> First(protos, column, a, b)
    ensures CompareEntry(protos, column, a, b) > 0 <==> First(protos, column, b, a)
  {
    if HasKey(protos, column, a) && HasKey(protos, column, b) {
      KeysDecide(protos, column, a, b);
      hide CompareEntry, KeyOf, HasKey;
      NamesDecide(KeyOf(protos, column, a), KeyOf(protos, column, b));
    }
  }

  /** Key i decides: no key before it ends the list or tells the two apart. */
  ghost predicate Decides(protos: Protos, keys: seq<bv8>, i: nat, a: Listing, b: Listing)
    requires i < |keys|
  {
    && keys[i] != 12
    && (forall j :: 0 <= j < i ==>
          keys[j] != 12 && !First(protos, keys[j] & 0xEF, a, b) && !First(protos, keys[j] & 0xEF, b, a))
    && if keys[i] & 0x10 == 0 then First(protos, keys[i] & 0xEF, a, b) else First(protos, keys[i] & 0xEF, b, a)
  }

  // ---------------------------------------------------------------- the comparator

  /** The first column from `i` on that tells the two apart decides, the other way round when reversed. */
  function Order(protos: Protos, keys: seq<bv8>, i: nat, a: Listing, b: Listing): int
    requires i <= |keys|
    decreases |keys| - i
  {
    if i == |keys| || keys[i] == END_OF_SORT then 0
    else
      var res := CompareEntry(protos, keys[i] & COLUMN_MASK, a, b);
      if res == 0 then Order(protos, keys, i + 1, a, b)
      else if keys[i] & AUCTION_SORT_REVERSED == 0 then res else -res
  }

  predicate Before(protos: Protos, keys: seq<bv8>, a: Listing, b: Listing) { Order(protos, keys, 0, a, b) < 0 }

  lemma {:induction false} OrderDecides(protos: Protos, keys: seq<bv8>, n: nat, a: Listing, b: Listing)
    requires n <= |keys|
    requires forall j :: 0 <= j < n ==>
               keys[j] != 12 && !First(protos, keys[j] & 0xEF, a, b) && !First(protos, keys[j] & 0xEF, b, a)
    ensures Order(protos, keys, n, a, b) < 0 <==> exists i :: 0 <= i < |keys| && Decides(protos, keys, i, a, b)
    decreases |keys| - n
  {
    hide CompareEntry, First;
    if n < |keys| && keys[n] != END_OF_SORT {
      var column := keys[n] & COLUMN_MASK;
      assert column == keys[n] & 0xEF;
      ColumnDecides(protos, column, a, b);
      if CompareEntry(protos, column, a, b) == 0 {
        OrderDecides(protos, keys, n + 1, a, b);
      } else {
        OnlyHere(protos, keys, n, a, b);
      }
    } else {
      forall i | 0 <= i < |keys| ensures !Decides(protos, keys, i, a, b) {
        assert i < n || n < |keys|;
      }
    }
  }

  lemma OnlyHere(protos: Protos, keys: seq<bv8>, n: nat, a: Listing, b: Listing)
    requires n < |keys| && keys[n] != 12
    requires forall j :: 0 <= j < n ==>
               keys[j] != 12 && !First(protos, keys[j] & 0xEF, a, b) && !First(protos, keys[j] & 0xEF, b, a)
    requires First(protos, keys[n] & 0xEF, a, b) || First(protos, keys[n] & 0xEF, b, a)
    ensures (exists i :: 0 <= i < |keys| && Decides(protos, keys, i, a, b)) <==>
            if keys[n] & 0x10 == 0 then First(protos, keys[n] & 0xEF, a, b) else First(protos, keys[n] & 0xEF, b, a)
  {
    hide First;
    forall i | 0 <= i < |keys| && i != n ensures !Decides(protos, keys, i, a, b) {
      if i > n { assert keys[n] != 12; }
    }
    if Decides(protos, keys, n, a, b) {
    }
  }

  method Less(protos: Protos, sort: seq<bv8>, a: Listing, b: Listing) returns (less: bool)
    requires |sort| == MAX_AUCTION_SORT
    ensures less <==> Before(protos, sort, a, b)
    ensures less <==> exists i :: 0 <= i < 12 && Decides(protos, sort, i, a, b)
  {
    OrderDecides(protos, sort, 0, a, b);
    hide CompareEntry, Decides;
    if sort[0] == END_OF_SORT {
      return false;
    }
    var i := 0;
    while i < MAX_AUCTION_SORT
      invariant 0 <= i <= MAX_AUCTION_SORT
      invariant Order(protos, sort, 0, a, b) == Order(protos, sort, i, a, b)
    {
      if sort[i] == END_OF_SORT {
        return false;
      }
      var res := CompareEntry(protos, sort[i] & COLUMN_MASK, a, b);
      if res == 0 {
        i := i + 1;
        continue;
      }
      return (res < 0) == (sort[i] & AUCTION_SORT_REVERSED == 0);
    }
    return false;
  }

  // ---------------------------------------------------------------- when it is a strict weak order

  ghost predicate Incomparable(protos: Protos, keys: seq<bv8>, a: Listing, b: Listing) {
    !Before(protos, keys, a, b) && !Before(protos, keys, b, a)
  }

  ghost predicate StrictWeak(protos: Protos, keys: seq<bv8>, list: set<Listing>) {
    && (forall a :: a in list ==> !Before(protos, keys, a, a))
    && (forall a, b, c :: a in list && b in list && c in list ==>
          (Before(protos, keys, a, b) && Before(protos, keys, b, c) ==> Before(protos, keys, a, c)))
    && (forall a, b, c :: a in list && b in list && c in list ==>
          (Incomparable(protos, keys, a, b) && Incomparable(protos, keys, b, c) ==> Incomparable(protos, keys, a, c)))
  }

  ghost predicate SameLook(p: Proto, q: Proto) {
    p.requiredLevel == q.requiredLevel && p.quality == q.quality && p.name == q.name
  }

  /** Either every item has its prototype, or those that have one cannot be told apart by it. */
  ghost predicate Comparable(protos: Protos, list: set<Listing>) {
    || (forall a :: a in list ==> a.itemTemplate in protos)
    || (forall a, b :: a in list && b in list && a.itemTemplate in protos && b.itemTemplate in protos ==>
          SameLook(protos[a.itemTemplate], protos[b.itemTemplate]))
  }

  // ---------------------------------------------------------------- one column

  /** How three results of a total preorder hang together: `xy` compares x to y, and so on. */
  predicate Chained(xy: int, yz: int, xz: int) {
    (xy <= 0 && yz <= 0 ==> xz <= 0 && (xz == 0 ==> xy == 0 && yz == 0)) && (xy == 0 && yz == 0 ==> xz == 0)
  }

  lemma {:induction false} NamesReversed(s: seq<int>, t: seq<int>)
    ensures CompareNames(s, t) == -CompareNames(t, s)
  {
    if s != [] && t != [] && s[0] == t[0] {
      NamesReversed(s[1..], t[1..]);
    }
  }

  lemma {:induction false} NamesEqual(s: seq<int>, t: seq<int>)
    ensures CompareNames(s, t) == 0 <==> s == t
  {
    if s != [] && t != [] && s[0] == t[0] {
      NamesEqual(s[1..], t[1..]);
      assert s == [s[0]] + s[1..] && t == [t[0]] + t[1..];
    }
  }

  lemma {:induction false} NamesChained(s: seq<int>, t: seq<int>, u: seq<int>)
    ensures Chained(CompareNames(s, t), CompareNames(t, u), CompareNames(s, u))
  {
    if s != [] && t != [] && u != [] && s[0] == t[0] == u[0] {
      NamesChained(s[1..], t[1..], u[1..]);
    }
  }

  lemma EntryReversed(protos: Protos, column: bv8, a: Listing, b: Listing)
    ensures CompareEntry(protos, column, a, b) == -CompareEntry(protos, column, b, a)
  {
    NamesReversed(a.ownerName, b.ownerName);
    if a.itemTemplate in protos && b.itemTemplate in protos {
      NamesReversed(protos[a.itemTemplate].name, protos[b.itemTemplate].name);
    }
    hide CompareNames;
  }

  /** The columns that read the prototype. */
  predicate ReadsProto(column: bv8) { column == 0 || column == 1 || column == 5 }

  lemma PlainChained(protos: Protos, column: bv8, a: Listing, b: Listing, c: Listing)
    requires !ReadsProto(column)
    ensures Chained(CompareEntry(protos, column, a, b), CompareEntry(protos, column, b, c),
                    CompareEntry(protos, column, a, c))
  {
    NamesChained(a.ownerName, b.ownerName, c.ownerName);
    hide CompareNames;
  }

  lemma ProtoChained(protos: Protos, column: bv8, a: Listing, b: Listing, c: Listing)
    requires ReadsProto(column)
    requires a.itemTemplate in protos && b.itemTemplate in protos && c.itemTemplate in protos
    ensures Chained(CompareEntry(protos, column, a, b), CompareEntry(protos, column, b, c),
                    CompareEntry(protos, column, a, c))
  {
    NamesChained(protos[a.itemTemplate].name, protos[b.itemTemplate].name, protos[c.itemTemplate].name);
    hide CompareNames;
  }

  lemma LookAlike(protos: Protos, column: bv8, a: Listing, b: Listing)
    requires ReadsProto(column)
    requires a.itemTemplate in protos && b.itemTemplate in protos ==>
               SameLook(protos[a.itemTemplate], protos[b.itemTemplate])
    ensures CompareEntry(protos, column, a, b) == 0
  {
    if a.itemTemplate in protos {
      NamesEqual(protos[a.itemTemplate].name, protos[a.itemTemplate].name);
    }
  }

  lemma EntryChained(protos: Protos, column: bv8, list: set<Listing>, a: Listing, b: Listing, c: Listing)
    requires Comparable(protos, list) && a in list && b in list && c in list
    ensures Chained(CompareEntry(protos, column, a, b), CompareEntry(protos, column, b, c),
                    CompareEntry(protos, column, a, c))
  {
    hide CompareEntry;
    if !ReadsProto(column) {
      PlainChained(protos, column, a, b, c);
    } else if forall x :: x in list ==> x.itemTemplate in protos {
      ProtoChained(protos, column, a, b, c);
    } else {
      LookAlike(protos, column, a, b);
      LookAlike(protos, column, b, c);
      LookAlike(protos, column, a, c);
    }
  }

  // ---------------------------------------------------------------- all columns

  lemma {:induction false} OrderReversed(protos: Protos, keys: seq<bv8>, i: nat, a: Listing, b: Listing)
    requires i <= |keys|
    ensures Order(protos, keys, i, a, b) == -Order(protos, keys, i, b, a)
    decreases |keys| - i
  {
    hide CompareEntry;
    if i < |keys| && keys[i] != END_OF_SORT {
      EntryReversed(protos, keys[i] & COLUMN_MASK, a, b);
      OrderReversed(protos, keys, i + 1, a, b);
    }
  }

  lemma {:induction false} OrderChained(protos: Protos, keys: seq<bv8>, i: nat, list: set<Listing>,
                                        a: Listing, b: Listing, c: Listing)
    requires i <= |keys| && Comparable(protos, list) && a in list && b in list && c in list
    ensures Chained(Order(protos, keys, i, a, b), Order(protos, keys, i, b, c), Order(protos, keys, i, a, c))
    decreases |keys| - i
  {
    hide CompareEntry, Comparable;
    if i < |keys| && keys[i] != END_OF_SORT {
      var column := keys[i] & COLUMN_MASK;
      EntryChained(protos, column, list, a, b, c);
      EntryChained(protos, column, list, c, b, a);
      EntryReversed(protos, column, a, b);
      EntryReversed(protos, column, b, c);
      EntryReversed(protos, column, a, c);
      OrderChained(protos, keys, i + 1, list, a, b, c);
    }
  }

  lemma OrderStrictWeak(protos: Protos, keys: seq<bv8>, list: set<Listing>)
    requires Comparable(protos, list)
    ensures StrictWeak(protos, keys, list)
  {
    hide Order, Comparable;
    forall a | a in list ensures !Before(protos, keys, a, a) {
      OrderReversed(protos, keys, 0, a, a);
    }
    forall a, b, c | a in list && b in list && c in list
      ensures Before(protos, keys, a, b) && Before(protos, keys, b, c) ==> Before(protos, keys, a, c)
      ensures Incomparable(protos, keys, a, b) && Incomparable(protos, keys, b, c) ==> Incomparable(protos, keys, a, c)
    {
      OrderChained(protos, keys, 0, list, a, b, c);
      OrderReversed(protos, keys, 0, a, b);
      OrderReversed(protos, keys, 0, b, c);
      OrderReversed(protos, keys, 0, a, c);
    }
  }

  // ---------------------------------------------------------------- and when it is not

  /** Sorting by one column only. */
  function Single(column: bv8): seq<bv8> {
    [column] + seq(MAX_AUCTION_SORT - 1, _ => END_OF_SORT)
  }

  lemma SingleOrder(protos: Protos, column: bv8, a: Listing, b: Listing)
    requires ReadsProto(column)
    ensures Before(protos, Single(column), a, b) <==> CompareEntry(protos, column, a, b) < 0
  {
    hide CompareEntry;
    var keys := Single(column);
    assert keys[0] == column && keys[1] == END_OF_SORT;
    assert keys[0] & COLUMN_MASK == column && keys[0] & AUCTION_SORT_REVERSED == 0;
    assert Order(protos, keys, 1, a, b) == 0;
  }

  lemma ToldApart(protos: Protos, a: Listing, b: Listing) returns (column: bv8)
    requires a.itemTemplate in protos && b.itemTemplate in protos
    requires !SameLook(protos[a.itemTemplate], protos[b.itemTemplate])
    ensures ReadsProto(column) && CompareEntry(protos, column, a, b) != 0
  {
    var p, q := protos[a.itemTemplate], protos[b.itemTemplate];
    NamesEqual(p.name, q.name);
    column := if p.requiredLevel != q.requiredLevel then 0 else if p.quality != q.quality then 1 else 5;
  }

  /** An item without prototype is level with two items that are not level with each other. */
  lemma MissingProtoBreaks(protos: Protos, list: set<Listing>, m: Listing, a: Listing, b: Listing)
    returns (keys: seq<bv8>)
    requires m in list && a in list && b in list
    requires m.itemTemplate !in protos && a.itemTemplate in protos && b.itemTemplate in protos
    requires !SameLook(protos[a.itemTemplate], protos[b.itemTemplate])
    ensures |keys| == MAX_AUCTION_SORT && !StrictWeak(protos, keys, list)
  {
    var column := ToldApart(protos, a, b);
    keys := Single(column);
    SingleOrder(protos, column, a, b);
    SingleOrder(protos, column, b, a);
    SingleOrder(protos, column, a, m);
    SingleOrder(protos, column, m, a);
    SingleOrder(protos, column, m, b);
    SingleOrder(protos, column, b, m);
    EntryReversed(protos, column, a, b);
    assert Incomparable(protos, keys, a, m) && Incomparable(protos, keys, m, b) && !Incomparable(protos, keys, a, b);
  }

  /** The comparator is a strict weak order for every choice of columns exactly when every item has its prototype
      or those that have one look alike. */
  lemma SorterIsStrictWeakOrder(protos: Protos, list: set<Listing>)
    ensures (forall keys: seq<bv8> :: |keys| == MAX_AUCTION_SORT ==> StrictWeak(protos, keys, list)) <==>
            Comparable(protos, list)
  {
    hide StrictWeak;
    if Comparable(protos, list) {
      forall keys: seq<bv8> | |keys| == MAX_AUCTION_SORT ensures StrictWeak(protos, keys, list) {
        OrderStrictWeak(protos, keys, list);
      }
    } else {
      var m :| m in list && m.itemTemplate !in protos;
      var a, b :| a in list && b in list && a.itemTemplate in protos && b.itemTemplate in protos &&
                  !SameLook(protos[a.itemTemplate], protos[b.itemTemplate]);
      var keys := MissingProtoBreaks(protos, list, m, a, b);
    }
  }
}
