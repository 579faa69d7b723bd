/** The auction house as an escrow: money leaves a purse when an auction is listed or bid on, is held by
    the auction, and comes out as mail.  `Market` is the whole state; each operation is a function on it
    that class `AuctionHouseMgr` (module `AuctionHouse`) is proved to carry out in place. */
module Auctions {
  import opened Machine
  import opened Ordering
  import opened Sums

  const MINUTE := 60
  const HOUR := 60 * MINUTE
  const MIN_AUCTION_TIME := 12 * HOUR
  const MAX_BAG_SIZE := 36
  const MAX_MONEY_AMOUNT := 9999999999

  // ---------------------------------------------------------------- state

  /** Auction ids are unique over all houses; an auction is looked up in one house. */
  datatype Key = Key(house: nat, id: nat)

  /** `item`, `owner` and `bidder` are low guids, 0 meaning none; `bid == 0` means no bid.
      An entry is pending once `moneyDeliveryTime` is set and active before. */
  datatype Entry = Entry(
    item: nat,
    owner: nat,
    startbid: nat,
    bid: nat,
    buyout: nat,
    expireTime: int,
    moneyDeliveryTime: int,
    bidder: nat,
    deposit: nat,
    cutRate: real)
  {
    predicate Pending() { moneyDeliveryTime != 0 }

    /** The house's share of the bid. */
    function Cut(): int { (cutRate * bid as real).Floor }

    /** The least raise: five times one percent of the bid, and at least one copper. */
    function OutBid(): nat { if bid / 100 * 5 == 0 then 1 else bid / 100 * 5 }
  }

  datatype Subject = OutBidded | Won | Successful | Expired | CancelledToBidder | Cancelled
  datatype Letter = Letter(receiver: nat, subject: Subject, money: int, item: nat)

  /** `money` has a purse for every existing character.  `sink` is money taken out of the game and `minted`
      money brought in; `listed` and `destroyed` are the items ever put up and those deleted. */
  datatype Market = Market(
    money: map<nat, int>,
    mail: seq<Letter>,
    auctions: map<Key, Entry>,
    items: set<nat>,
    nextAuction: nat,
    nextItem: nat,
    sink: int,
    minted: int,
    listed: set<nat>,
    destroyed: multiset<nat>)

  // ---------------------------------------------------------------- steps

  /** A purse never goes below 0 or above the gold cap. */
  function Modified(money: int, d: int): int {
    if d < 0 then (if money > -d then money + d else 0)
    else if money < MAX_MONEY_AMOUNT - d then money + d else MAX_MONEY_AMOUNT
  }

  function Modify(m: Market, p: nat, d: int): Market
    requires p in m.money
  {
    m.(money := m.money[p := Modified(m.money[p], d)])
  }

  function Pay(m: Market, p: nat, amount: int): Market
    requires p in m.money
  {
    Modify(m, p, -amount)
  }

  /** Money goes out by mail, or is lost with a receiver who no longer exists. */
  function SendMoney(m: Market, receiver: nat, subject: Subject, amount: int): Market {
    if receiver in m.money then m.(mail := m.mail + [Letter(receiver, subject, amount, 0)])
    else m.(sink := m.sink + amount)
  }

  /** The item of an auction goes out by mail, or is deleted with a receiver who no longer exists. */
  function SendItem(m: Market, receiver: nat, subject: Subject, item: nat): Market {
    var m' := m.(items := m.items - {item});
    if receiver in m.money then m'.(mail := m.mail + [Letter(receiver, subject, 0, item)])
    else m'.(destroyed := m.destroyed + multiset{item})
  }

  function Put(m: Market, k: Key, e: Entry): Market { m.(auctions := m.auctions[k := e]) }

  function Drop(m: Market, k: Key): Market { m.(auctions := m.auctions - {k}) }

  // ---------------------------------------------------------------- operations

  /** A fresh clone of the item is listed under a fresh id. */
  function List(m: Market, house: nat, e: Entry): Market {
    m.(auctions := m.auctions[Key(house, m.nextAuction) := e.(item := m.nextItem)],
       items := m.items + {m.nextItem},
       listed := m.listed + {m.nextItem},
       nextAuction := m.nextAuction + 1,
       nextItem := m.nextItem + 1)
  }

  function NewEntry(owner: nat, terms: Terms, deposit: nat): Entry {
    Entry(0, owner, terms.startbid, 0, terms.buyout, terms.Expires(), 0, 0, deposit, terms.cutRate)
  }

  /** `clock` is the time of listing, and `timeRate` stretches the seconds an auction runs. */
  datatype Terms = Terms(
    house: nat,
    startbid: nat,
    buyout: nat,
    seconds: nat,
    clock: nat,
    timeRate: real,
    cutRate: real)
  {
    function Expires(): int { clock + (seconds as real * timeRate).Floor }
  }

  /** One item offered for sale: `sellable` stands for the tests on the item itself. */
  datatype Offer = Offer(guid: nat, sellable: bool, deposit: nat)

  function SellOne(m: Market, p: nat, terms: Terms, offer: Offer): Market
    requires p in m.money
  {
    if offer.guid == 0 || offer.guid in m.items || !offer.sellable || m.money[p] < offer.deposit then m
    else List(Pay(m, p, offer.deposit), terms.house, NewEntry(p, terms, offer.deposit))
  }

  function SellAll(m: Market, p: nat, terms: Terms, offers: seq<Offer>): (r: Market)
    requires p in m.money
    ensures p in r.money
  {
    if offers == [] then m else SellOne(SellAll(m, p, terms, offers[..|offers| - 1]), p, terms, offers[|offers| - 1])
  }

  /** The client sends minutes; only 12, 24 and 48 hours pass. */
  predicate GoodTime(seconds: nat) {
    seconds == MIN_AUCTION_TIME || seconds == 2 * MIN_AUCTION_TIME || seconds == 4 * MIN_AUCTION_TIME
  }

  function Sell(m: Market, p: nat, terms: Terms, minutes: nat, offers: seq<Offer>): Market {
    var seconds := minutes * MINUTE % UINT32_LIMIT;
    if p !in m.money || |offers| > 5 * MAX_BAG_SIZE || terms.startbid == 0 || !GoodTime(seconds) then m
    else SellAll(m, p, terms.(seconds := seconds), offers)
  }

  /** The bidder gets the item at once; the money stays with the entry for an hour more. */
  function Win(m: Market, k: Key, wall: nat): Market
    requires k in m.auctions
  {
    var e := m.auctions[k].(moneyDeliveryTime := wall + HOUR);
    if e.item !in m.items then Put(m, k, e)
    else Put(SendItem(m, e.bidder, Won, e.item), k, e.(item := 0))
  }

  /** A bid above the buyout counts as the buyout. */
  function Clipped(e: Entry, price: nat): nat { if e.buyout != 0 && price > e.buyout then e.buyout else price }

  /** The new bidder pays, only the difference on top of his own bid; any other old bidder is refunded. */
  function Settle(m: Market, e: Entry, bidder: nat, bid: nat): Market
    requires bidder != 0 ==> bidder in m.money
  {
    if bidder != 0 && bidder == e.bidder then Pay(m, bidder, bid - e.bid)
    else
      var paid := if bidder != 0 then Pay(m, bidder, bid) else m;
      if e.bidder != 0 then SendMoney(paid, e.bidder, OutBidded, e.bid) else paid
  }

  /** `bidder` is 0 for a bid placed by the server. */
  function Bid(m: Market, k: Key, bidder: nat, price: nat, wall: nat): Market
    requires k in m.auctions && (bidder != 0 ==> bidder in m.money)
  {
    var e := m.auctions[k];
    var bid := Clipped(e, price);
    var m2 := Put(Settle(m, e, bidder, bid), k, e.(bidder := bidder, bid := bid));
    if bid < e.buyout || e.buyout == 0 then m2 else Win(m2, k, wall)
  }

  /** The guards of a bid sent by a client. */
  predicate MayBid(m: Market, k: Key, p: nat, price: nat, ownAccount: bool)
    requires p in m.money
  {
    && k.id != 0 && price != 0 && k in m.auctions
    && var e := m.auctions[k];
       && e.owner != p && !ownAccount
       && price > e.bid
       && ((price < e.buyout || e.buyout == 0) ==> price >= e.bid + e.OutBid())
       && price <= m.money[p]
       && price >= e.startbid
  }

  function PlaceBid(m: Market, k: Key, p: nat, price: nat, ownAccount: bool, wall: nat): Market {
    if p in m.money && MayBid(m, k, p, price, ownAccount) && p != 0 then Bid(m, k, p, price, wall) else m
  }

  function ServerBid(m: Market, k: Key, price: nat, wall: nat): Market {
    if k in m.auctions then Bid(m, k, 0, price, wall) else m
  }

  predicate MayCancel(m: Market, k: Key, p: nat)
    requires p in m.money
  {
    && k in m.auctions
    && var e := m.auctions[k];
       e.owner == p && e.item in m.items && (e.bid != 0 ==> m.money[p] >= e.Cut())
  }

  function Cancel(m: Market, k: Key, p: nat): Market {
    if p !in m.money || !MayCancel(m, k, p) then m
    else
      var e := m.auctions[k];
      var m1 := if e.bid != 0 && e.bidder != 0 then SendMoney(m, e.bidder, CancelledToBidder, e.bid) else m;
      var m2 := if e.bid != 0 then Pay(m1, p, e.Cut()).(sink := m1.sink + e.Cut()) else m1;
      var m3 := SendItem(m2, p, Cancelled, e.item);
      Drop(m3.(sink := m3.sink + e.deposit), k)
  }

  /** The seller is paid: bid and deposit less the cut.  The server covers a bid of its own. */
  function Deliver(m: Market, k: Key): Market
    requires k in m.auctions
  {
    var e := m.auctions[k];
    var m1 := m.(minted := m.minted + if e.bidder == 0 then e.bid else 0);
    var m2 :=
      if e.owner in m.money then
        SendMoney(m1, e.owner, Successful, e.bid + e.deposit - e.Cut()).(sink := m.sink + e.Cut())
      else m1.(sink := m.sink + e.bid + e.deposit);
    Drop(m2, k)
  }

  /** No bid in time: the item goes back and the deposit is forfeited. */
  function Expire(m: Market, k: Key): Market
    requires k in m.auctions
  {
    var e := m.auctions[k];
    var m1 := if e.item in m.items then SendItem(m, e.owner, Expired, e.item) else m;
    Drop(m1.(sink := m1.sink + e.deposit), k)
  }

  function TickOne(m: Market, k: Key, now: int, wall: nat): Market {
    if k !in m.auctions then m
    else
      var e := m.auctions[k];
      if e.Pending() then if now > e.moneyDeliveryTime then Deliver(m, k) else m
      else if now > e.expireTime then if e.bid != 0 then Win(m, k, wall) else Expire(m, k)
      else m
  }

  function TickAll(m: Market, order: seq<Key>, now: int, wall: nat): Market {
    if order == [] then m else TickOne(TickAll(m, order[..|order| - 1], now, wall), order[|order| - 1], now, wall)
  }

  /** What the rest of the world does to a character: gains, losses, creation and deletion. */
  function SetPurse(m: Market, p: nat, amount: int): Market
    requires p != 0 && 0 <= amount <= MAX_MONEY_AMOUNT
  {
    m.(money := m.money[p := amount], minted := m.minted + amount - if p in m.money then m.money[p] else 0)
  }

  function DeleteCharacter(m: Market, p: nat): Market {
    if p in m.money then m.(money := m.money - {p}, minted := m.minted - m.money[p]) else m
  }

  datatype Op =
    | DoSell(seller: nat, terms: Terms, minutes: nat, offers: seq<Offer>)
    | DoServerSell(terms: Terms)
    | DoBid(key: Key, bidder: nat, price: nat, ownAccount: bool, wall: nat)
    | DoServerBid(key: Key, price: nat, wall: nat)
    | DoCancel(key: Key, owner: nat)
    | DoTick(order: seq<Key>, now: int, wall: nat)
    | DoSetPurse(player: nat, amount: int)
    | DoDelete(player: nat)
  {
    /** The house's rate is a share, characters have guids and purses respect the cap. */
    ghost predicate Sane() {
      && (DoSell? ==> 0.0 <= terms.cutRate <= 1.0)
      && (DoServerSell? ==> 0.0 <= terms.cutRate <= 1.0)
      && (DoSetPurse? ==> player != 0 && 0 <= amount <= MAX_MONEY_AMOUNT)
    }
  }

  function Apply(m: Market, op: Op): Market
    requires op.Sane()
  {
    match op
    case DoSell(p, terms, minutes, offers) => Sell(m, p, terms, minutes, offers)
    case DoServerSell(terms) => List(m, terms.house, NewEntry(0, terms, 0))
    case DoBid(k, p, price, ownAccount, wall) => PlaceBid(m, k, p, price, ownAccount, wall)
    case DoServerBid(k, price, wall) => ServerBid(m, k, price, wall)
    case DoCancel(k, p) => Cancel(m, k, p)
    case DoTick(order, now, wall) => TickAll(m, order, now, wall)
    case DoSetPurse(p, amount) => SetPurse(m, p, amount)
    case DoDelete(p) => DeleteCharacter(m, p)
  }

  ghost function Run(m: Market, ops: seq<Op>): Market
    requires forall i :: 0 <= i < |ops| ==> ops[i].Sane()
  {
    if ops == [] then m else Apply(Run(m, ops[..|ops| - 1]), ops[|ops| - 1])
  }

  // ---------------------------------------------------------------- money

  datatype Who = Everyone | Only(player: nat)
  {
    predicate Has(p: nat) { Everyone? || player == p }
  }

  ghost function PursesOf(money: map<nat, int>, who: Who): map<nat, int> {
    map p | p in money && who.Has(p) :: money[p]
  }

  ghost function Purses(money: map<nat, int>, who: Who): int { Sum(PursesOf(money, who)) }

  ghost function Mailed(mail: seq<Letter>, who: Who): int {
    if mail == [] then 0
    else Mailed(mail[..|mail| - 1], who) + if who.Has(mail[|mail| - 1].receiver) then mail[|mail| - 1].money else 0
  }

  /** The bid belongs to the bidder and the deposit to the owner as long as the entry holds them;
      a bid placed by the server holds no money. */
  ghost function Share(e: Entry, who: Who): int {
    (if e.bidder != 0 && who.Has(e.bidder) then e.bid else 0) + if who.Has(e.owner) then e.deposit else 0
  }

  ghost function Shares(auctions: map<Key, Entry>, who: Who): map<Key, int> {
    map k | k in auctions :: Share(auctions[k], who)
  }

  ghost function Held(auctions: map<Key, Entry>, who: Who): int { Sum(Shares(auctions, who)) }

  /** What belongs to these players: in their purses, in their mail and held by auctions. */
  ghost function Holdings(m: Market, who: Who): int {
    Purses(m.money, who) + Mailed(m.mail, who) + Held(m.auctions, who)
  }

  // ---------------------------------------------------------------- what every state keeps

  ghost predicate Solvent(money: map<nat, int>) {
    0 !in money && forall p :: p in money ==> 0 <= money[p] <= MAX_MONEY_AMOUNT
  }

  ghost predicate Capped(e: Entry) {
    && 0.0 <= e.cutRate <= 1.0
    && (e.buyout != 0 ==> e.bid <= e.buyout)
    && (e.bidder != 0 ==> e.bid != 0)
    && (e.Pending() <==> e.item == 0)
  }

  /** A bid stays at or below the buyout, and strictly below it while the auction is active. */
  ghost predicate Fair(e: Entry) { Capped(e) && (e.buyout != 0 && !e.Pending() ==> e.bid < e.buyout) }

  ghost predicate NoDebts(mail: seq<Letter>) { forall i :: 0 <= i < |mail| ==> 0 <= mail[i].money }

  ghost predicate Lawful(m: Market) {
    && Solvent(m.money) && NoDebts(m.mail)
    && (forall k :: k in m.auctions ==> k.id < m.nextAuction && Fair(m.auctions[k]))
  }

  ghost function MailedItems(mail: seq<Letter>): multiset<nat> {
    if mail == [] then multiset{}
    else
      var last := mail[|mail| - 1];
      MailedItems(mail[..|mail| - 1]) + if last.item != 0 then multiset{last.item} else multiset{}
  }

  ghost predicate Holds(auctions: map<Key, Entry>, k: Key, item: nat) {
    k in auctions && !auctions[k].Pending() && auctions[k].item == item
  }

  /** The item index has exactly the items of the active auctions, one auction each. */
  ghost predicate Indexed(auctions: map<Key, Entry>, items: set<nat>) {
    && 0 !in items
    && (forall k :: k in auctions && !auctions[k].Pending() ==> auctions[k].item in items)
    && (forall item :: item in items ==> exists k :: Holds(auctions, k, item))
    && (forall j, k, item :: Holds(auctions, j, item) && Holds(auctions, k, item) ==> j == k)
  }

  /** Every item ever listed is in exactly one place: on auction, in one letter, or deleted. */
  ghost predicate Accounted(m: Market) {
    && 0 < m.nextItem && (forall item :: item in m.listed ==> 0 < item < m.nextItem)
    && multiset(m.listed) == multiset(m.items) + MailedItems(m.mail) + m.destroyed
  }

  ghost predicate Balanced(m: Market) { Holdings(m, Everyone) + m.sink == m.minted }

  /** No purse or letter is negative, active auctions stay below their buyout, items are where they should be. */
  ghost predicate Sound(m: Market) { Lawful(m) && Indexed(m.auctions, m.items) && Accounted(m) }

  ghost predicate Valid(m: Market) { Sound(m) && Balanced(m) }

  // ---------------------------------------------------------------- how the sums move

  lemma CutIsShare(e: Entry)
    requires Fair(e)
    ensures 0 <= e.Cut() <= e.bid
  {
    assert 0.0 <= e.cutRate * e.bid as real <= e.bid as real;
  }

  lemma PurseSet(money: map<nat, int>, p: nat, v: int, who: Who)
    ensures Purses(money[p := v], who) ==
            Purses(money, who) + if who.Has(p) then v - (if p in money then money[p] else 0) else 0
  {
    var before, after := PursesOf(money, who), PursesOf(money[p := v], who);
    if who.Has(p) {
      assert after == before[p := v];
      SumUpdate(before, p, v);
    } else {
      assert after == before;
    }
  }

  lemma PurseGone(money: map<nat, int>, p: nat, who: Who)
    requires p in money
    ensures Purses(money - {p}, who) == Purses(money, who) - if who.Has(p) then money[p] else 0
  {
    var before, after := PursesOf(money, who), PursesOf(money - {p}, who);
    if who.Has(p) {
      assert after == before - {p};
      SumRemove(before, p);
    } else {
      assert after == before;
    }
  }

  lemma EntrySet(auctions: map<Key, Entry>, k: Key, e: Entry, who: Who)
    ensures Held(auctions[k := e], who) ==
            Held(auctions, who) + Share(e, who) - if k in auctions then Share(auctions[k], who) else 0
  {
    var before := Shares(auctions, who);
    assert Shares(auctions[k := e], who) == before[k := Share(e, who)];
    SumUpdate(before, k, Share(e, who));
  }

  lemma EntryGone(auctions: map<Key, Entry>, k: Key, who: Who)
    requires k in auctions
    ensures Held(auctions - {k}, who) == Held(auctions, who) - Share(auctions[k], who)
  {
    var before := Shares(auctions, who);
    assert Shares(auctions - {k}, who) == before - {k};
    SumRemove(before, k);
  }

  lemma Posted(mail: seq<Letter>, l: Letter, who: Who)
    ensures Mailed(mail + [l], who) == Mailed(mail, who) + if who.Has(l.receiver) then l.money else 0
    ensures MailedItems(mail + [l]) == MailedItems(mail) + if l.item != 0 then multiset{l.item} else multiset{}
  {
    assert (mail + [l])[..|mail + [l]| - 1] == mail;
  }

  // ---------------------------------------------------------------- how the item index moves

  lemma IndexedPut(auctions: map<Key, Entry>, items: set<nat>, k: Key, e: Entry)
    requires Indexed(auctions, items) && k in auctions
    requires e.item == auctions[k].item && (e.Pending() <==> auctions[k].Pending())
    ensures Indexed(auctions[k := e], items)
  {
    var after := auctions[k := e];
    assert forall j, item :: Holds(after, j, item) <==> Holds(auctions, j, item);
  }

  /** An active auction lets go of its item, either by becoming pending or by leaving. */
  lemma IndexedRelease(auctions: map<Key, Entry>, items: set<nat>, after: map<Key, Entry>, k: Key)
    requires Indexed(auctions, items) && k in auctions && !auctions[k].Pending()
    requires after.Keys <= auctions.Keys && auctions.Keys <= after.Keys + {k}
    requires forall j :: j in after && j != k ==> after[j] == auctions[j]
    requires k in after ==> after[k].Pending()
    ensures Indexed(after, items - {auctions[k].item})
  {
    var item := auctions[k].item;
    assert Holds(auctions, k, item);
    assert forall j, i :: Holds(after, j, i) <==> Holds(auctions, j, i) && j != k;
    forall i | i in items - {item} ensures exists j :: Holds(after, j, i) {
      var j :| Holds(auctions, j, i);
      assert Holds(after, j, i);
    }
    forall j | j in after && !after[j].Pending() ensures after[j].item in items - {item} {
      assert Holds(auctions, j, after[j].item);
    }
  }

  lemma IndexedDrop(auctions: map<Key, Entry>, items: set<nat>, k: Key)
    requires Indexed(auctions, items) && k in auctions && auctions[k].Pending()
    ensures Indexed(auctions - {k}, items)
  {
    assert forall j, i :: Holds(auctions - {k}, j, i) <==> Holds(auctions, j, i);
  }

  lemma IndexedList(auctions: map<Key, Entry>, items: set<nat>, k: Key, e: Entry)
    requires Indexed(auctions, items) && k !in auctions && e.item !in items && e.item != 0 && !e.Pending()
    ensures Indexed(auctions[k := e], items + {e.item})
  {
    var after := auctions[k := e];
    assert forall j, i :: Holds(after, j, i) <==> Holds(auctions, j, i) || (j == k && i == e.item);
    forall j, i | Holds(after, j, i) && Holds(after, k, i) ensures j == k {
    }
    forall i | i in items + {e.item} ensures exists j :: Holds(after, j, i) {
      if i == e.item {
        assert Holds(after, k, i);
      } else {
        var j :| Holds(auctions, j, i);
        assert Holds(after, j, i);
      }
    }
  }

  // ---------------------------------------------------------------- what each step does

  /** A payment that the purse covers is taken in full. */
  lemma PaymentExact(m: Market, p: nat, amount: nat, who: Who)
    requires Solvent(m.money) && p in m.money && amount <= m.money[p]
    ensures var m' := Pay(m, p, amount);
            && m'.money == m.money[p := m.money[p] - amount] && Solvent(m'.money)
            && Holdings(m', who) == Holdings(m, who) - if who.Has(p) then amount else 0
  {
    PurseSet(m.money, p, m.money[p] - amount, who);
  }

  lemma MoneySent(m: Market, receiver: nat, subject: Subject, amount: int, who: Who)
    ensures var m' := SendMoney(m, receiver, subject, amount);
            && Holdings(m', who) == Holdings(m, who) + (if receiver in m.money && who.Has(receiver) then amount else 0)
            && m'.sink == m.sink + (if receiver in m.money then 0 else amount)
            && MailedItems(m'.mail) == MailedItems(m.mail)
  {
    Posted(m.mail, Letter(receiver, subject, amount, 0), who);
  }

  lemma ItemSent(m: Market, receiver: nat, subject: Subject, item: nat, who: Who)
    requires item in m.items && item != 0
    ensures var m' := SendItem(m, receiver, subject, item);
            && Holdings(m', who) == Holdings(m, who)
            && multiset(m'.items) + MailedItems(m'.mail) + m'.destroyed ==
               multiset(m.items) + MailedItems(m.mail) + m.destroyed
  {
    hide Mailed, MailedItems, Held, Purses;
    Posted(m.mail, Letter(receiver, subject, 0, item), who);
    var m' := SendItem(m, receiver, subject, item);
    assert multiset(m.items) == multiset(m'.items) + multiset{item};
    assert MailedItems(m'.mail) + m'.destroyed == MailedItems(m.mail) + m.destroyed + multiset{item};
  }

  lemma EntryPut(m: Market, k: Key, e: Entry, who: Who)
    requires k in m.auctions
    ensures Holdings(Put(m, k, e), who) == Holdings(m, who) + Share(e, who) - Share(m.auctions[k], who)
  {
    EntrySet(m.auctions, k, e, who);
  }

  lemma EntryDropped(m: Market, k: Key, who: Who)
    requires k in m.auctions
    ensures Holdings(Drop(m, k), who) == Holdings(m, who) - Share(m.auctions[k], who)
  {
    EntryGone(m.auctions, k, who);
  }

  // ---------------------------------------------------------------- what each operation costs a player

  lemma WinHoldings(m: Market, k: Key, wall: nat, who: Who)
    requires k in m.auctions && (m.auctions[k].item in m.items ==> m.auctions[k].item != 0)
    ensures var m' := Win(m, k, wall);
            Holdings(m', who) == Holdings(m, who) && m'.sink == m.sink && m'.minted == m.minted && m'.money == m.money
  {
    hide Holdings, Mailed, Held, Purses, MailedItems;
    var e := m.auctions[k].(moneyDeliveryTime := wall + HOUR);
    if e.item !in m.items {
      EntryPut(m, k, e, who);
    } else {
      ItemSent(m, e.bidder, Won, e.item, who);
      EntryPut(SendItem(m, e.bidder, Won, e.item), k, e.(item := 0), who);
    }
  }

  ghost predicate Affordable(m: Market, k: Key, bidder: nat, price: nat) {
    k in m.auctions && (bidder != 0 ==> bidder in m.money && m.auctions[k].bid < price <= m.money[bidder])
  }

  /** A refund to a bidder who no longer exists is lost. */
  ghost function LostRefund(m: Market, k: Key, bidder: nat): nat
    requires k in m.auctions
  {
    var e := m.auctions[k];
    if e.bidder != 0 && e.bidder != bidder && e.bidder !in m.money then e.bid else 0
  }

  lemma SettleHoldings(m: Market, k: Key, bidder: nat, bid: nat, who: Who)
    requires Solvent(m.money) && k in m.auctions
    requires bidder != 0 ==> bidder in m.money && m.auctions[k].bid <= bid <= m.money[bidder]
    ensures var e, m' := m.auctions[k], Settle(m, m.auctions[k], bidder, bid);
            && Holdings(m', who) == Holdings(m, who)
               + (if e.bidder != 0 && who.Has(e.bidder) then e.bid else 0)
               - (if bidder != 0 && who.Has(bidder) then bid else 0)
               - (if who.Has(e.bidder) then LostRefund(m, k, bidder) else 0)
            && m'.sink == m.sink + LostRefund(m, k, bidder) && Solvent(m'.money)
            && m' == m.(money := m'.money, mail := m'.mail, sink := m'.sink)
            && MailedItems(m'.mail) == MailedItems(m.mail)
            && m'.money.Keys == m.money.Keys
  {
    hide Holdings, Mailed, Held, Purses, MailedItems;
    var e := m.auctions[k];
    if bidder != 0 && bidder == e.bidder {
      PaymentExact(m, bidder, bid - e.bid, who);
    } else {
      if bidder != 0 { PaymentExact(m, bidder, bid, who); }
      var paid := if bidder != 0 then Pay(m, bidder, bid) else m;
      if e.bidder != 0 { MoneySent(paid, e.bidder, OutBidded, e.bid, who); }
    }
  }

  /** A bid moves money between purse, mail and escrow, and nothing that belongs to an existing player is lost:
      the outbid player gets back all he paid, and a bidder who raises his own bid pays the difference. */
  lemma BidHoldings(m: Market, k: Key, bidder: nat, price: nat, wall: nat, who: Who)
    requires Solvent(m.money) && Affordable(m, k, bidder, price) && Fair(m.auctions[k])
    requires m.auctions[k].item in m.items ==> m.auctions[k].item != 0
    ensures var m' := Bid(m, k, bidder, price, wall);
            && Holdings(m', who) == Holdings(m, who) -
               (if who.Has(m.auctions[k].bidder) then LostRefund(m, k, bidder) else 0)
            && m'.sink == m.sink + LostRefund(m, k, bidder) && m'.minted == m.minted
            && Solvent(m'.money)
  {
    hide Holdings, Mailed, Held, Purses, Settle, MailedItems, Win;
    var e := m.auctions[k];
    var bid := Clipped(e, price);
    var e' := e.(bidder := bidder, bid := bid);
    SettleHoldings(m, k, bidder, bid, who);
    var m1 := Settle(m, e, bidder, bid);
    EntryPut(m1, k, e', who);
    WinHoldings(Put(m1, k, e'), k, wall, who);
  }

  /** A seller who lists an item has paid nothing away yet: the deposit is still his. */
  lemma ListHoldings(m: Market, house: nat, e: Entry, who: Who)
    requires Key(house, m.nextAuction) !in m.auctions && e.bidder == 0
    ensures Holdings(List(m, house, e), who) == Holdings(m, who) + if who.Has(e.owner) then e.deposit else 0
  {
    EntrySet(m.auctions, Key(house, m.nextAuction), e.(item := m.nextItem), who);
  }

  lemma SellOneHoldings(m: Market, p: nat, terms: Terms, offer: Offer, who: Who)
    requires Lawful(m) && p in m.money
    ensures var m' := SellOne(m, p, terms, offer);
            Holdings(m', who) == Holdings(m, who) && m'.sink == m.sink && m'.minted == m.minted
  {
    hide Holdings, Mailed, Held, Purses;
    if !(offer.guid == 0 || offer.guid in m.items || !offer.sellable || m.money[p] < offer.deposit) {
      PaymentExact(m, p, offer.deposit, who);
      ListHoldings(Pay(m, p, offer.deposit), terms.house, NewEntry(p, terms, offer.deposit), who);
    }
  }

  /** Cancelling costs the owner his deposit and, when there is a bid, the cut; the bidder gets all of his bid back. */
  lemma CancelHoldings(m: Market, k: Key, p: nat, who: Who)
    requires Solvent(m.money) && p in m.money && MayCancel(m, k, p) && Fair(m.auctions[k]) && m.auctions[k].item != 0
    ensures var e, m' := m.auctions[k], Cancel(m, k, p);
            var fee := e.deposit + if e.bid != 0 then e.Cut() else 0;
            && Holdings(m', who) == Holdings(m, who) - (if who.Has(p) then fee else 0) -
               (if who.Has(e.bidder) && e.bidder !in m.money && e.bidder != 0 then e.bid else 0)
            && m'.sink == m.sink + fee + (if e.bidder !in m.money && e.bidder != 0 then e.bid else 0)
            && m'.minted == m.minted && Solvent(m'.money)
  {
    hide Holdings, Mailed, Held, Purses, MailedItems;
    var e := m.auctions[k];
    CutIsShare(e);
    var m1 := if e.bid != 0 && e.bidder != 0 then SendMoney(m, e.bidder, CancelledToBidder, e.bid) else m;
    if e.bid != 0 && e.bidder != 0 { MoneySent(m, e.bidder, CancelledToBidder, e.bid, who); }
    var m2 := if e.bid != 0 then Pay(m1, p, e.Cut()).(sink := m1.sink + e.Cut()) else m1;
    if e.bid != 0 {
      PaymentExact(m1, p, e.Cut(), who);
      SameHoldings(Pay(m1, p, e.Cut()), m2, who);
    }
    var m3 := SendItem(m2, p, Cancelled, e.item);
    ItemSent(m2, p, Cancelled, e.item, who);
    var m4 := m3.(sink := m3.sink + e.deposit);
    SameHoldings(m3, m4, who);
    EntryDropped(m4, k, who);
  }

  lemma SameHoldings(m: Market, m': Market, who: Who)
    requires m'.money == m.money && m'.mail == m.mail && m'.auctions == m.auctions
    ensures Holdings(m', who) == Holdings(m, who)
  {
  }

  /** Delivery turns the bidder's escrow and the seller's deposit into the seller's proceeds. */
  lemma DeliverHoldings(m: Market, k: Key, who: Who)
    requires k in m.auctions
    ensures var e, m' := m.auctions[k], Deliver(m, k);
            && Holdings(m', who) == Holdings(m, who) - Share(e, who) +
               (if e.owner in m.money && who.Has(e.owner) then e.bid + e.deposit - e.Cut() else 0)
            && m'.minted == m.minted + (if e.bidder == 0 then e.bid else 0)
            && m'.sink == m.sink + if e.owner in m.money then e.Cut() else e.bid + e.deposit
  {
    hide Holdings, Mailed, Held, Purses, Share, MailedItems;
    var e := m.auctions[k];
    var m1 := m.(minted := m.minted + if e.bidder == 0 then e.bid else 0);
    SameHoldings(m, m1, who);
    if e.owner in m.money {
      MoneySent(m1, e.owner, Successful, e.bid + e.deposit - e.Cut(), who);
      var m2 := SendMoney(m1, e.owner, Successful, e.bid + e.deposit - e.Cut()).(sink := m.sink + e.Cut());
      SameHoldings(SendMoney(m1, e.owner, Successful, e.bid + e.deposit - e.Cut()), m2, who);
      EntryDropped(m2, k, who);
    } else {
      var m2 := m1.(sink := m.sink + e.bid + e.deposit);
      SameHoldings(m1, m2, who);
      EntryDropped(m2, k, who);
    }
  }

  /** An auction without a bid costs the owner his deposit. */
  lemma ExpireHoldings(m: Market, k: Key, who: Who)
    requires k in m.auctions && (m.auctions[k].item in m.items ==> m.auctions[k].item != 0)
    ensures var e, m' := m.auctions[k], Expire(m, k);
            && Holdings(m', who) == Holdings(m, who) - Share(e, who)
            && m'.sink == m.sink + e.deposit && m'.minted == m.minted
  {
    hide Holdings, Mailed, Held, Purses, Share, MailedItems;
    var e := m.auctions[k];
    var m1 := if e.item in m.items then SendItem(m, e.owner, Expired, e.item) else m;
    if e.item in m.items { ItemSent(m, e.owner, Expired, e.item, who); }
    var m2 := m1.(sink := m1.sink + e.deposit);
    SameHoldings(m1, m2, who);
    EntryDropped(m2, k, who);
  }

  // ---------------------------------------------------------------- every operation keeps the market valid

  lemma SoundEntry(m: Market, k: Key)
    requires Sound(m) && k in m.auctions
    ensures Fair(m.auctions[k]) && Capped(m.auctions[k]) && Solvent(m.money)
    ensures m.auctions[k].item in m.items <==> !m.auctions[k].Pending()
    ensures m.auctions[k].item in m.items ==> m.auctions[k].item != 0
    ensures k.id < m.nextAuction
  {
  }

  lemma FreshKey(m: Market, house: nat)
    requires Sound(m)
    ensures Key(house, m.nextAuction) !in m.auctions && m.nextItem !in m.items && m.nextItem !in m.listed
  {
    assert forall item :: item in m.items ==> item in multiset(m.listed);
  }

  /** The entry that is about to be won may have reached its buyout. */
  ghost predicate SoundBut(m: Market, k: Key) {
    && Solvent(m.money) && NoDebts(m.mail) && Indexed(m.auctions, m.items) && Accounted(m)
    && (forall j :: j in m.auctions ==> j.id < m.nextAuction && Capped(m.auctions[j]))
    && (forall j :: j in m.auctions && j != k ==> Fair(m.auctions[j]))
  }

  lemma WonFair(e: Entry, wall: nat)
    requires Capped(e)
    ensures Fair(e.(moneyDeliveryTime := wall + HOUR, item := 0))
  {
  }

  lemma HeldItem(m: Market, k: Key)
    requires SoundBut(m, k) && k in m.auctions
    ensures m.auctions[k].item in m.items <==> !m.auctions[k].Pending()
    ensures m.auctions[k].item == 0 <==> m.auctions[k].Pending()
  {
  }

  lemma WinAccounted(m: Market, k: Key, wall: nat)
    requires SoundBut(m, k) && k in m.auctions
    ensures Accounted(Win(m, k, wall)) && NoDebts(Win(m, k, wall).mail)
  {
    HeldItem(m, k);
    hide MailedItems, Holdings, Capped, Indexed, Fair;
    if m.auctions[k].item in m.items {
      ItemSent(m, m.auctions[k].bidder, Won, m.auctions[k].item, Everyone);
    }
  }

  lemma WinIndexed(m: Market, k: Key, wall: nat)
    requires SoundBut(m, k) && k in m.auctions
    ensures Indexed(Win(m, k, wall).auctions, Win(m, k, wall).items)
  {
    HeldItem(m, k);
    hide Accounted, Capped, Indexed, Fair, NoDebts;
    var e := m.auctions[k].(moneyDeliveryTime := wall + HOUR);
    if e.item !in m.items {
      IndexedPut(m.auctions, m.items, k, e);
    } else {
      IndexedRelease(m.auctions, m.items, m.auctions[k := e.(item := 0)], k);
    }
  }

  lemma WinSound(m: Market, k: Key, wall: nat)
    requires SoundBut(m, k) && k in m.auctions
    ensures Sound(Win(m, k, wall))
  {
    HeldItem(m, k);
    WonFair(m.auctions[k], wall);
    WinAccounted(m, k, wall);
    WinIndexed(m, k, wall);
    hide Accounted, NoDebts, Capped, Indexed, Fair;
    var e := m.auctions[k].(moneyDeliveryTime := wall + HOUR);
    if e.item !in m.items {
      assert e == e.(item := 0);
    }
  }

  lemma BidSound(m: Market, k: Key, bidder: nat, price: nat, wall: nat)
    requires Sound(m) && Affordable(m, k, bidder, price) && (bidder != 0 ==> price != 0)
    ensures Sound(Bid(m, k, bidder, price, wall))
  {
    hide Holdings, Settle, MailedItems, Win, Indexed;
    SoundEntry(m, k);
    var e := m.auctions[k];
    var bid := Clipped(e, price);
    var e' := e.(bidder := bidder, bid := bid);
    SettleHoldings(m, k, bidder, bid, Everyone);
    SettleNoDebts(m, e, bidder, bid);
    var m1 := Settle(m, e, bidder, bid);
    IndexedPut(m.auctions, m.items, k, e');
    if !(bid < e.buyout || e.buyout == 0) { WinSound(Put(m1, k, e'), k, wall); }
  }

  lemma SettleNoDebts(m: Market, e: Entry, bidder: nat, bid: nat)
    requires NoDebts(m.mail) && (bidder != 0 ==> bidder in m.money)
    ensures NoDebts(Settle(m, e, bidder, bid).mail)
  {
  }

  lemma BidValid(m: Market, k: Key, bidder: nat, price: nat, wall: nat)
    requires Valid(m) && Affordable(m, k, bidder, price) && (bidder != 0 ==> price != 0)
    ensures Valid(Bid(m, k, bidder, price, wall))
  {
    hide Sound, Bid, Holdings;
    BidSound(m, k, bidder, price, wall);
    SoundEntry(m, k);
    BidHoldings(m, k, bidder, price, wall, Everyone);
  }

  lemma ListSound(m: Market, house: nat, e: Entry)
    requires Sound(m) && Fair(e.(item := m.nextItem)) && !e.Pending()
    ensures Sound(List(m, house, e))
  {
    hide MailedItems;
    FreshKey(m, house);
    IndexedList(m.auctions, m.items, Key(house, m.nextAuction), e.(item := m.nextItem));
    assert multiset(m.items + {m.nextItem}) == multiset(m.items) + multiset{m.nextItem};
    assert multiset(m.listed + {m.nextItem}) == multiset(m.listed) + multiset{m.nextItem};
  }

  lemma FreshFair(owner: nat, terms: Terms, deposit: nat, item: nat)
    requires 0.0 <= terms.cutRate <= 1.0 && item != 0
    ensures Fair(NewEntry(owner, terms, deposit).(item := item))
  {
  }

  lemma ServerSellValid(m: Market, terms: Terms)
    requires Valid(m) && 0.0 <= terms.cutRate <= 1.0
    ensures Valid(List(m, terms.house, NewEntry(0, terms, 0)))
  {
    hide Holdings, MailedItems;
    FreshKey(m, terms.house);
    FreshFair(0, terms, 0, m.nextItem);
    ListSound(m, terms.house, NewEntry(0, terms, 0));
    ListHoldings(m, terms.house, NewEntry(0, terms, 0), Everyone);
  }

  lemma SellOneValid(m: Market, p: nat, terms: Terms, offer: Offer)
    requires Valid(m) && p in m.money && 0.0 <= terms.cutRate <= 1.0
    ensures Valid(SellOne(m, p, terms, offer))
  {
    hide Holdings, MailedItems, Indexed;
    if !(offer.guid == 0 || offer.guid in m.items || !offer.sellable || m.money[p] < offer.deposit) {
      PaymentExact(m, p, offer.deposit, Everyone);
      FreshFair(p, terms, offer.deposit, m.nextItem);
      ListSound(Pay(m, p, offer.deposit), terms.house, NewEntry(p, terms, offer.deposit));
      SellOneHoldings(m, p, terms, offer, Everyone);
    }
  }

  lemma {:induction false} SellAllValid(m: Market, p: nat, terms: Terms, offers: seq<Offer>)
    requires Valid(m) && p in m.money && 0.0 <= terms.cutRate <= 1.0
    ensures Valid(SellAll(m, p, terms, offers))
  {
    hide Valid;
    if offers != [] {
      SellAllValid(m, p, terms, offers[..|offers| - 1]);
      SellOneValid(SellAll(m, p, terms, offers[..|offers| - 1]), p, terms, offers[|offers| - 1]);
    }
  }

  lemma CancelSound(m: Market, k: Key, p: nat)
    requires Sound(m) && p in m.money && MayCancel(m, k, p)
    ensures Sound(Cancel(m, k, p))
  {
    hide MailedItems, Holdings, Indexed;
    SoundEntry(m, k);
    var e := m.auctions[k];
    CutIsShare(e);
    var m1 := if e.bid != 0 && e.bidder != 0 then SendMoney(m, e.bidder, CancelledToBidder, e.bid) else m;
    if e.bid != 0 && e.bidder != 0 { MoneySent(m, e.bidder, CancelledToBidder, e.bid, Everyone); }
    var m2 := if e.bid != 0 then Pay(m1, p, e.Cut()).(sink := m1.sink + e.Cut()) else m1;
    if e.bid != 0 { PaymentExact(m1, p, e.Cut(), Everyone); }
    ItemSent(m2, p, Cancelled, e.item, Everyone);
    IndexedRelease(m.auctions, m.items, m.auctions - {k}, k);
  }

  lemma CancelValid(m: Market, k: Key, p: nat)
    requires Valid(m)
    ensures Valid(Cancel(m, k, p))
  {
    if p in m.money && MayCancel(m, k, p) {
      SoundEntry(m, k);
      CancelSound(m, k, p);
      hide Sound, Cancel, Holdings;
      CancelHoldings(m, k, p, Everyone);
    }
  }

  lemma DeliverSound(m: Market, k: Key)
    requires Sound(m) && k in m.auctions && m.auctions[k].Pending()
    ensures Sound(Deliver(m, k))
  {
    hide Holdings, MailedItems, Mailed, Indexed;
    SoundEntry(m, k);
    var e := m.auctions[k];
    CutIsShare(e);
    hide Capped, Fair;
    IndexedDrop(m.auctions, m.items, k);
    var m1 := m.(minted := m.minted + if e.bidder == 0 then e.bid else 0);
    MoneySent(m1, e.owner, Successful, e.bid + e.deposit - e.Cut(), Everyone);
  }

  lemma DeliverValid(m: Market, k: Key)
    requires Valid(m) && k in m.auctions && m.auctions[k].Pending()
    ensures Valid(Deliver(m, k))
  {
    hide Holdings, Sound, Deliver;
    DeliverSound(m, k);
    DeliverHoldings(m, k, Everyone);
  }

  lemma ExpireSound(m: Market, k: Key)
    requires Sound(m) && k in m.auctions && !m.auctions[k].Pending()
    ensures Sound(Expire(m, k))
  {
    hide Holdings, MailedItems, Mailed, Indexed;
    SoundEntry(m, k);
    hide Capped, Fair;
    var e := m.auctions[k];
    ItemSent(m, e.owner, Expired, e.item, Everyone);
    IndexedRelease(m.auctions, m.items, m.auctions - {k}, k);
  }

  lemma ExpireValid(m: Market, k: Key)
    requires Valid(m) && k in m.auctions && !m.auctions[k].Pending() && m.auctions[k].bid == 0
    ensures Valid(Expire(m, k))
  {
    SoundEntry(m, k);
    hide Holdings, Sound, Expire;
    ExpireSound(m, k);
    ExpireHoldings(m, k, Everyone);
  }

  lemma TickOneValid(m: Market, k: Key, now: int, wall: nat)
    requires Valid(m)
    ensures Valid(TickOne(m, k, now, wall))
  {
    if k in m.auctions {
      SoundEntry(m, k);
      var e := m.auctions[k];
      if e.Pending() {
        hide Valid, Deliver;
        if now > e.moneyDeliveryTime { DeliverValid(m, k); }
      } else if now > e.expireTime {
        if e.bid != 0 {
          WinSound(m, k, wall);
          hide Sound, Win, Holdings;
          WinHoldings(m, k, wall, Everyone);
        } else {
          hide Valid, Expire;
          ExpireValid(m, k);
        }
      }
    }
  }

  lemma {:induction false} TickAllValid(m: Market, order: seq<Key>, now: int, wall: nat)
    requires Valid(m)
    ensures Valid(TickAll(m, order, now, wall))
  {
    hide Valid, TickOne;
    if order != [] {
      TickAllValid(m, order[..|order| - 1], now, wall);
      TickOneValid(TickAll(m, order[..|order| - 1], now, wall), order[|order| - 1], now, wall);
    }
  }

  lemma SetPurseValid(m: Market, p: nat, amount: int)
    requires Valid(m) && p != 0 && 0 <= amount <= MAX_MONEY_AMOUNT
    ensures Valid(SetPurse(m, p, amount))
  {
    hide Held, MailedItems, Mailed, Purses, Indexed;
    PurseSet(m.money, p, amount, Everyone);
  }

  lemma DeleteValid(m: Market, p: nat)
    requires Valid(m)
    ensures Valid(DeleteCharacter(m, p))
  {
    hide Held, MailedItems, Mailed, Purses, Indexed;
    if p in m.money {
      PurseGone(m.money, p, Everyone);
    }
  }

  lemma ApplyValid(m: Market, op: Op)
    requires Valid(m) && op.Sane()
    ensures Valid(Apply(m, op))
  {
    hide Valid, SellAll, Bid, TickAll, List;
    match op {
      case DoSell(p, terms, minutes, offers) =>
        if p in m.money { SellAllValid(m, p, terms.(seconds := minutes * MINUTE % UINT32_LIMIT), offers); }
      case DoServerSell(terms) => ServerSellValid(m, terms);
      case DoBid(k, p, price, ownAccount, wall) =>
        if p in m.money && MayBid(m, k, p, price, ownAccount) { BidValid(m, k, p, price, wall); }
      case DoServerBid(k, price, wall) =>
        if k in m.auctions { BidValid(m, k, 0, price, wall); }
      case DoCancel(k, p) => CancelValid(m, k, p);
      case DoTick(order, now, wall) => TickAllValid(m, order, now, wall);
      case DoSetPurse(p, amount) => SetPurseValid(m, p, amount);
      case DoDelete(p) => DeleteValid(m, p);
    }
  }

  /** Over every run no balance goes negative, every listed item is in exactly one place, the item index
      matches the active auctions, and all money is accounted for. */
  lemma {:induction false} RunValid(m: Market, ops: seq<Op>)
    requires Valid(m) && forall i :: 0 <= i < |ops| ==> ops[i].Sane()
    ensures Valid(Run(m, ops))
  {
    hide Valid, Apply;
    if ops != [] {
      RunValid(m, ops[..|ops| - 1]);
      ApplyValid(Run(m, ops[..|ops| - 1]), ops[|ops| - 1]);
    }
  }

  lemma EmptyValid(money: map<nat, int>)
    requires Solvent(money)
    ensures Valid(Market(money, [], map[], {}, 1, 1, 0, Purses(money, Everyone), {}, multiset{}))
  {
  }

  // ---------------------------------------------------------------- what a player can lose

  /** Listing and bidding, by whomever. */
  ghost predicate Trading(op: Op) { op.DoSell? || op.DoServerSell? || op.DoBid? || op.DoServerBid? }

  lemma {:induction false} SellAllHoldings(m: Market, p: nat, terms: Terms, offers: seq<Offer>, who: Who)
    requires Valid(m) && p in m.money && 0.0 <= terms.cutRate <= 1.0
    ensures Holdings(SellAll(m, p, terms, offers), who) == Holdings(m, who)
    ensures SellAll(m, p, terms, offers).money.Keys == m.money.Keys
  {
    hide Holdings, MailedItems, Indexed, Accounted, Balanced;
    if offers != [] {
      SellAllHoldings(m, p, terms, offers[..|offers| - 1], who);
      SellAllValid(m, p, terms, offers[..|offers| - 1]);
      SellOneHoldings(SellAll(m, p, terms, offers[..|offers| - 1]), p, terms, offers[|offers| - 1], who);
    }
  }

  lemma BidKeys(m: Market, k: Key, bidder: nat, price: nat, wall: nat)
    requires k in m.auctions && (bidder != 0 ==> bidder in m.money)
    ensures Bid(m, k, bidder, price, wall).money.Keys == m.money.Keys
  {
    hide Settle;
    SettleKeys(m, m.auctions[k], bidder, Clipped(m.auctions[k], price));
  }

  lemma SettleKeys(m: Market, e: Entry, bidder: nat, bid: nat)
    requires bidder != 0 ==> bidder in m.money
    ensures Settle(m, e, bidder, bid).money.Keys == m.money.Keys
  {
  }

  lemma BidKeepsHoldings(m: Market, k: Key, bidder: nat, price: nat, wall: nat, p: nat)
    requires Valid(m) && p in m.money && Affordable(m, k, bidder, price)
    ensures Holdings(Bid(m, k, bidder, price, wall), Only(p)) == Holdings(m, Only(p))
  {
    SoundEntry(m, k);
    hide Holdings, Sound, Bid;
    BidHoldings(m, k, bidder, price, wall, Only(p));
  }

  lemma TradeHoldings(m: Market, op: Op, p: nat)
    requires Valid(m) && op.Sane() && Trading(op) && p in m.money
    ensures p in Apply(m, op).money && Holdings(Apply(m, op), Only(p)) == Holdings(m, Only(p))
  {
    hide Holdings, Valid, Bid, SellAll;
    match op {
      case DoSell(q, terms, minutes, offers) =>
        if q in m.money { SellAllHoldings(m, q, terms.(seconds := minutes * MINUTE % UINT32_LIMIT), offers, Only(p)); }
      case DoServerSell(terms) =>
        assert Sound(m) by { ServerSellValid(m, terms); UnfoldValid(m); }
        FreshKey(m, terms.house);
        assert p != 0 by { UnfoldValid(m); }
        ListHoldings(m, terms.house, NewEntry(0, terms, 0), Only(p));
      case DoBid(k, q, price, ownAccount, wall) =>
        if q in m.money && MayBid(m, k, q, price, ownAccount) && q != 0 {
          BidKeys(m, k, q, price, wall);
          BidKeepsHoldings(m, k, q, price, wall, p);
        }
      case DoServerBid(k, price, wall) =>
        if k in m.auctions {
          BidKeys(m, k, 0, price, wall);
          BidKeepsHoldings(m, k, 0, price, wall, p);
        }
    }
  }

  lemma UnfoldValid(m: Market)
    requires Valid(m)
    ensures Sound(m) && Lawful(m) && Solvent(m.money) && Balanced(m)
  {
  }

  /** Over any run of listing and bidding, whoever acts, what an existing player owns in his purse, in his mail
      and on hold stays exactly the same: only a sale, an expiry or a cancellation costs anything. */
  lemma {:induction false} TradingCostsNothing(m: Market, ops: seq<Op>, p: nat)
    requires Valid(m) && p in m.money
    requires forall i :: 0 <= i < |ops| ==> ops[i].Sane() && Trading(ops[i])
    ensures p in Run(m, ops).money && Holdings(Run(m, ops), Only(p)) == Holdings(m, Only(p))
  {
    hide Holdings, Valid, Apply, Trading;
    if ops != [] {
      var before := ops[..|ops| - 1];
      TradingCostsNothing(m, before, p);
      RunValid(m, before);
      TradeHoldings(Run(m, before), ops[|ops| - 1], p);
    }
  }

  // ---------------------------------------------------------------- what a tick does

  predicate Due(e: Entry, now: int) { now > if e.Pending() then e.moneyDeliveryTime else e.expireTime }

  /** A due entry leaves, except an active one with a bid, which becomes pending. */
  predicate Stays(e: Entry, now: int) { Due(e, now) ==> !e.Pending() && e.bid != 0 }

  function After(e: Entry, now: int, wall: nat): Entry {
    if Due(e, now) then e.(moneyDeliveryTime := wall + HOUR, item := 0) else e
  }

  /** The letter of a due entry, unless its receiver no longer exists. */
  function LetterFor(e: Entry): Letter {
    if e.Pending() then Letter(e.owner, Successful, e.bid + e.deposit - e.Cut(), 0)
    else if e.bid != 0 then Letter(e.bidder, Won, 0, e.item)
    else Letter(e.owner, Expired, 0, e.item)
  }

  function LettersAt(m: Market, k: Key, now: int): seq<Letter> {
    if k in m.auctions && Due(m.auctions[k], now) && LetterFor(m.auctions[k]).receiver in m.money
    then [LetterFor(m.auctions[k])] else []
  }

  ghost function Letters(m: Market, order: seq<Key>, now: int): seq<Letter> {
    if order == [] then []
    else Letters(m, order[..|order| - 1], now) + LettersAt(m, order[|order| - 1], now)
  }

  lemma TickOneExact(m: Market, k: Key, now: int, wall: nat)
    requires Sound(m)
    ensures var m' := TickOne(m, k, now, wall);
            && m'.money == m.money
            && m'.mail == m.mail + LettersAt(m, k, now)
            && (k in m'.auctions <==> k in m.auctions && Stays(m.auctions[k], now))
            && (k in m'.auctions ==> m'.auctions[k] == After(m.auctions[k], now, wall))
            && (forall j :: j != k ==> (j in m'.auctions <==> j in m.auctions))
            && (forall j :: j != k && j in m'.auctions ==> m'.auctions[j] == m.auctions[j])
  {
    if k in m.auctions {
      SoundEntry(m, k);
    }
    hide Sound, Capped, Fair, Solvent;
  }

  /** A tick treats every auction by itself: exactly the due ones are paid out, handed over or returned. */
  lemma {:induction false} TickExact(m: Market, order: seq<Key>, now: int, wall: nat)
    requires Valid(m) && NoRepeats(order)
    ensures var m' := TickAll(m, order, now, wall);
            && m'.money == m.money
            && m'.mail == m.mail + Letters(m, order, now)
            && (forall k :: k in m'.auctions <==> k in m.auctions && (k in order ==> Stays(m.auctions[k], now)))
            && (forall k :: k in m'.auctions ==>
                  m'.auctions[k] == if k in order then After(m.auctions[k], now, wall) else m.auctions[k])
  {
    hide Valid, TickOne, Stays, After, LettersAt;
    if order != [] {
      var before, k := order[..|order| - 1], order[|order| - 1];
      TickExact(m, before, now, wall);
      TickAllValid(m, before, now, wall);
      var m1 := TickAll(m, before, now, wall);
      UnfoldValid(m1);
      TickOneExact(m1, k, now, wall);
      assert k !in before;
      assert forall j :: j in order <==> j in before || j == k;
      SameLetter(m, m1, k, now);
    }
  }

  lemma SameLetter(m: Market, m1: Market, k: Key, now: int)
    requires m1.money == m.money && (k in m1.auctions <==> k in m.auctions)
    requires k in m.auctions ==> m1.auctions[k] == m.auctions[k]
    ensures LettersAt(m1, k, now) == LettersAt(m, k, now)
  {
  }

  lemma {:induction false} LetterIn(m: Market, order: seq<Key>, now: int, k: Key)
    requires k in order
    ensures forall l :: l in LettersAt(m, k, now) ==> l in Letters(m, order, now)
  {
    hide LettersAt;
    if k != order[|order| - 1] {
      LetterIn(m, order[..|order| - 1], now, k);
    }
  }

  /** After its time an auction takes one tick to hand over the item and, if there was a bid, a second one an
      hour later to pay the seller; then it is gone. */
  lemma TwoTicksSettle(m: Market, k: Key, order: seq<Key>, now: int, wall: nat, order': seq<Key>, now': int, wall': nat)
    requires Valid(m) && k in m.auctions && !m.auctions[k].Pending() && now > m.auctions[k].expireTime
    requires NoRepeats(order) && NoRepeats(order') && k in order && k in order' && now' > wall + HOUR
    ensures var e, m1 := m.auctions[k], TickAll(m, order, now, wall);
            var m2 := TickAll(m1, order', now', wall');
            && k !in m2.auctions
            && (e.bid == 0 && e.owner in m.money ==> Letter(e.owner, Expired, 0, e.item) in m2.mail)
            && (e.bid != 0 && e.bidder in m.money ==> Letter(e.bidder, Won, 0, e.item) in m2.mail)
            && (e.bid != 0 && e.owner in m.money ==>
                  Letter(e.owner, Successful, e.bid + e.deposit - e.Cut(), 0) in m2.mail)
  {
    hide TickAll, Valid, NoRepeats;
    var e, m1 := m.auctions[k], TickAll(m, order, now, wall);
    TickAt(m, order, now, wall, k);
    TickAllValid(m, order, now, wall);
    TickAt(m1, order', now', wall', k);
  }

  lemma TickAt(m: Market, order: seq<Key>, now: int, wall: nat, k: Key)
    requires Valid(m) && NoRepeats(order) && k in order
    ensures var m' := TickAll(m, order, now, wall);
            && m'.money == m.money && (forall l :: l in m.mail ==> l in m'.mail)
            && (k in m'.auctions <==> k in m.auctions && Stays(m.auctions[k], now))
            && (k in m'.auctions ==> m'.auctions[k] == After(m.auctions[k], now, wall))
            && (k in m.auctions && Due(m.auctions[k], now) && LetterFor(m.auctions[k]).receiver in m.money ==>
                  LetterFor(m.auctions[k]) in m'.mail)
  {
    hide TickAll, Valid, Letters, NoRepeats;
    TickExact(m, order, now, wall);
    LetterIn(m, order, now, k);
  }

  // ---------------------------------------------------------------- bids on auctions already won

  /** The operation is a bid on this auction and the house takes it. */
  predicate Taken(m: Market, op: Op, k: Key) {
    match op
    case DoBid(j, p, price, ownAccount, _) => j == k && p in m.money && p != 0 && MayBid(m, k, p, price, ownAccount)
    case DoServerBid(j, _, _) => j == k && k in m.auctions
    case _ => false
  }

  /** The bidder and the price named by a bid. */
  function Named(op: Op): (nat, nat) {
    match op
    case DoBid(_, p, price, _, _) => (p, price)
    case DoServerBid(_, price, _) => (0, price)
    case _ => (0, 0)
  }

  /** Who made the last bid taken during the run, and its amount; the entry's own bid if none was taken. */
  ghost function LastBid(m: Market, ops: seq<Op>, k: Key): (nat, nat)
    requires k in m.auctions && forall i :: 0 <= i < |ops| ==> ops[i].Sane()
  {
    var e := m.auctions[k];
    if ops == [] then (e.bidder, e.bid)
    else
      var before, op := ops[..|ops| - 1], ops[|ops| - 1];
      if Taken(Run(m, before), op, k) then (Named(op).0, Clipped(e, Named(op).1)) else LastBid(m, before, k)
  }

  /** The old entry keeps its place or is gone, and ids are not used again. */
  ghost predicate KeepsEntry(m: Market, m': Market, k: Key) {
    && m.nextAuction <= m'.nextAuction
    && (k in m'.auctions && k.id < m.nextAuction ==> k in m.auctions && m'.auctions[k] == m.auctions[k])
  }

  ghost predicate NotActive(m: Market, k: Key) { k in m.auctions ==> m.auctions[k].Pending() }

  /** All that a bid on an auction already won does: the item stays with the first winner, who gets his
      whole bid back if he is outbid and still exists, and the newcomer's money is what the seller will be paid. */
  lemma LateBid(m: Market, k: Key, bidder: nat, price: nat, wall: nat)
    requires Sound(m) && k in m.auctions && m.auctions[k].Pending() && (bidder != 0 ==> bidder in m.money)
    ensures var e, m' := m.auctions[k], Bid(m, k, bidder, price, wall);
            && m'.items == m.items && m'.listed == m.listed && m'.destroyed == m.destroyed
            && m'.mail == m.mail + (if e.bidder !in {0, bidder} && e.bidder in m.money
                                    then [Letter(e.bidder, OutBidded, e.bid, 0)] else [])
            && m'.auctions.Keys == m.auctions.Keys
            && (forall j :: j in m.auctions && j != k ==> m'.auctions[j] == m.auctions[j])
            && m'.auctions[k] == e.(bidder := bidder, bid := Clipped(e, price),
                                    moneyDeliveryTime := m'.auctions[k].moneyDeliveryTime)
            && m'.auctions[k].Pending()
            && m'.nextAuction == m.nextAuction
  {
    var e, bid := m.auctions[k], Clipped(m.auctions[k], price);
    var m2 := Put(Settle(m, e, bidder, bid), k, e.(bidder := bidder, bid := bid));
    SoundEntry(m, k);
    SettleMoves(m, e, bidder, bid);
    hide Sound, Capped, Fair, Solvent, Settle, Win, Clipped;
    if !(bid < e.buyout || e.buyout == 0) { WonAgain(m2, k, wall); }
  }

  lemma SettleMoves(m: Market, e: Entry, bidder: nat, bid: nat)
    requires bidder != 0 ==> bidder in m.money
    ensures var m' := Settle(m, e, bidder, bid);
            && m'.auctions == m.auctions && m'.nextAuction == m.nextAuction
            && m'.items == m.items && m'.listed == m.listed && m'.destroyed == m.destroyed
            && m'.mail == m.mail + (if e.bidder !in {0, bidder} && e.bidder in m.money
                                    then [Letter(e.bidder, OutBidded, e.bid, 0)] else [])
  {
    hide Modified;
  }

  lemma WonAgain(m: Market, k: Key, wall: nat)
    requires k in m.auctions && m.auctions[k].item !in m.items
    ensures Win(m, k, wall) == Put(m, k, m.auctions[k].(moneyDeliveryTime := wall + HOUR))
  {
  }

  lemma WinElsewhere(m: Market, j: Key, wall: nat, k: Key)
    requires j in m.auctions && k != j
    ensures var m' := Win(m, j, wall);
            && m'.nextAuction == m.nextAuction && (k in m'.auctions <==> k in m.auctions)
            && (k in m.auctions ==> m'.auctions[k] == m.auctions[k])
  {
  }

  /** Whoever offers more than the buyout of an auction won by buyout is taken, pays the buyout and gets nothing. */
  lemma LateBidderPaysForNothing(m: Market, k: Key, p: nat, price: nat, wall: nat)
    requires Valid(m) && k in m.auctions && k.id != 0 && m.auctions[k].Pending() && p in m.money
    requires var e := m.auctions[k];
             && e.buyout != 0 && e.bid == e.buyout && e.startbid <= price && e.buyout < price <= m.money[p]
             && p != e.owner && p != e.bidder
    ensures var e, op := m.auctions[k], DoBid(k, p, price, false, wall);
            var m' := Apply(m, op);
            && Taken(m, op, k)
            && m'.money == m.money[p := m.money[p] - e.buyout]
            && m'.mail == m.mail + (if e.bidder != 0 && e.bidder in m.money
                                    then [Letter(e.bidder, OutBidded, e.bid, 0)] else [])
            && m'.items == m.items && m'.auctions[k].bidder == p && m'.auctions[k].item == 0
  {
    SoundEntry(m, k);
    assert p != 0;
    LateBid(m, k, p, price, wall);
    hide Valid;
  }

  /** Two players, and nothing on sale yet. */
  ghost function Opening(): Market {
    var money := map[2 := 1000, 3 := 1000];
    Market(money, [], map[], {}, 1, 1, 0, Purses(money, Everyone), {}, multiset{})
  }

  const LOT: Key := Key(0, 1)
  const LOT_TERMS: Terms := Terms(0, 1, 100, 43200, 1000, 1.0, 0.05)

  /** The server sells an item. */
  ghost function OnSale(): Market {
    Opening().(auctions := map[LOT := Entry(1, 0, 1, 0, 100, 44200, 0, 0, 0, 0.05)], items := {1}, listed := {1},
               nextAuction := 2, nextItem := 2)
  }

  /** The first player has bought it out. */
  ghost function BoughtOut(wall: nat): Market {
    OnSale().(money := map[2 := 900, 3 := 1000], mail := [Letter(2, Won, 0, 1)], items := {},
             auctions := map[LOT := Entry(0, 0, 1, 100, 100, 44200, wall + HOUR, 2, 0, 0.05)])
  }

  lemma Sale()
    ensures Apply(Opening(), DoServerSell(LOT_TERMS)) == OnSale()
  {
    hide Purses;
  }

  lemma BuyOut(wall: nat)
    ensures Apply(OnSale(), DoBid(LOT, 2, 100, false, wall)) == BoughtOut(wall)
  {
    hide Purses;
    var m := OnSale();
    assert MayBid(m, LOT, 2, 100, false);
    var e := m.auctions[LOT].(bidder := 2, bid := 100);
    var m2 := Put(Settle(m, m.auctions[LOT], 2, 100), LOT, e);
    assert m2 == m.(money := map[2 := 900, 3 := 1000], auctions := map[LOT := e]);
    assert Win(m2, LOT, wall) == BoughtOut(wall);
  }

  lemma OpeningValid()
    ensures Valid(Opening())
  {
    hide Valid, Purses;
    EmptyValid(Opening().money);
  }

  lemma LotIsSane()
    ensures DoServerSell(LOT_TERMS).Sane()
  {
  }

  lemma BoughtOutValid(wall: nat)
    ensures Valid(BoughtOut(wall))
  {
    hide *;
    OpeningValid();
    LotIsSane();
    ApplyValid(Opening(), DoServerSell(LOT_TERMS));
    Sale();
    var bid := DoBid(LOT, 2, 100, false, wall);
    assert bid.Sane() by { BidIsSane(bid); }
    ApplyValid(OnSale(), bid);
    BuyOut(wall);
  }

  lemma BidIsSane(op: Op)
    requires op.DoBid?
    ensures op.Sane()
  {
  }

  /** The second player has paid as well; the first has his money back, and the item. */
  ghost function PaidTwice(wall: nat): Market {
    BoughtOut(wall).(money := map[2 := 900, 3 := 900], mail := [Letter(2, Won, 0, 1), Letter(2, OutBidded, 100, 0)],
                     auctions := map[LOT := Entry(0, 0, 1, 100, 100, 44200, wall + HOUR, 3, 0, 0.05)])
  }

  /** It happens: from an opening market one player buys an item out, and then the other bids more. */
  lemma LateBidHappens(wall: nat)
    ensures Valid(BoughtOut(wall)) && Taken(BoughtOut(wall), DoBid(LOT, 3, 200, false, wall), LOT)
    ensures Apply(BoughtOut(wall), DoBid(LOT, 3, 200, false, wall)) == PaidTwice(wall)
  {
    BoughtOutValid(wall);
    hide Purses, Valid;
    var m := BoughtOut(wall);
    assert MayBid(m, LOT, 3, 200, false);
    var e := m.auctions[LOT].(bidder := 3);
    var m2 := Put(Settle(m, m.auctions[LOT], 3, 100), LOT, e);
    assert m2 == m.(money := map[2 := 900, 3 := 900],
                    mail := [Letter(2, Won, 0, 1), Letter(2, OutBidded, 100, 0)], auctions := map[LOT := e]);
    assert Win(m2, LOT, wall) == PaidTwice(wall);
  }

  lemma BidElsewhere(m: Market, j: Key, bidder: nat, price: nat, wall: nat, k: Key)
    requires j in m.auctions && (bidder != 0 ==> bidder in m.money) && k != j
    ensures KeepsEntry(m, Bid(m, j, bidder, price, wall), k)
  {
    var e, bid := m.auctions[j], Clipped(m.auctions[j], price);
    SettleMoves(m, e, bidder, bid);
    hide Settle, Win, Clipped;
    WinElsewhere(Put(Settle(m, e, bidder, bid), j, e.(bidder := bidder, bid := bid)), j, wall, k);
  }

  lemma {:induction false} SellKeepsEntry(m: Market, p: nat, terms: Terms, offers: seq<Offer>, k: Key)
    requires p in m.money
    ensures KeepsEntry(m, SellAll(m, p, terms, offers), k)
  {
    if offers != [] {
      SellKeepsEntry(m, p, terms, offers[..|offers| - 1], k);
    }
  }

  lemma TickOneKeepsEntry(m: Market, j: Key, now: int, wall: nat, k: Key)
    requires NotActive(m, k)
    ensures KeepsEntry(m, TickOne(m, j, now, wall), k)
    ensures NotActive(TickOne(m, j, now, wall), k)
  {
  }

  lemma {:induction false} TickKeepsEntry(m: Market, order: seq<Key>, now: int, wall: nat, k: Key)
    requires NotActive(m, k) && k.id < m.nextAuction
    ensures KeepsEntry(m, TickAll(m, order, now, wall), k)
    ensures NotActive(TickAll(m, order, now, wall), k)
  {
    hide TickOne;
    if order != [] {
      TickKeepsEntry(m, order[..|order| - 1], now, wall, k);
      TickOneKeepsEntry(TickAll(m, order[..|order| - 1], now, wall), order[|order| - 1], now, wall, k);
    }
  }

  lemma CancelKeepsEntry(m: Market, j: Key, p: nat, k: Key)
    requires Sound(m) && NotActive(m, k)
    ensures KeepsEntry(m, Cancel(m, j, p), k)
  {
    if k in m.auctions { SoundEntry(m, k); }
    hide Sound;
  }

  /** Nothing but a taken bid changes the entry of an auction already won. */
  lemma OthersKeepEntry(m: Market, op: Op, k: Key)
    requires Sound(m) && op.Sane() && NotActive(m, k) && k.id < m.nextAuction && !Taken(m, op, k)
    ensures KeepsEntry(m, Apply(m, op), k)
  {
    hide Sound, SellAll, Bid, TickAll, MayBid, Cancel;
    match op {
      case DoSell(p, terms, minutes, offers) =>
        if p in m.money { SellKeepsEntry(m, p, terms.(seconds := minutes * MINUTE % UINT32_LIMIT), offers, k); }
      case DoBid(j, p, price, ownAccount, wall) =>
        if j != k && p in m.money && p != 0 && MayBid(m, j, p, price, ownAccount) {
          MayBidThere(m, j, p, price, ownAccount);
          BidElsewhere(m, j, p, price, wall, k);
        }
      case DoServerBid(j, price, wall) =>
        if j in m.auctions { BidElsewhere(m, j, 0, price, wall, k); }
      case DoCancel(j, p) => CancelKeepsEntry(m, j, p, k);
      case DoTick(order, now, wall) => TickKeepsEntry(m, order, now, wall, k);
      case _ =>
    }
  }

  lemma MayBidThere(m: Market, j: Key, p: nat, price: nat, ownAccount: bool)
    requires p in m.money && MayBid(m, j, p, price, ownAccount)
    ensures j in m.auctions
  {
  }

  lemma TakenIsLate(m: Market, op: Op, k: Key)
    requires Sound(m) && op.Sane() && k in m.auctions && m.auctions[k].Pending() && Taken(m, op, k)
    ensures var e, m' := m.auctions[k], Apply(m, op);
            && k in m'.auctions && m'.auctions[k].Pending() && m'.nextAuction == m.nextAuction
            && m'.auctions[k] == e.(bidder := Named(op).0, bid := Clipped(e, Named(op).1),
                                    moneyDeliveryTime := m'.auctions[k].moneyDeliveryTime)
  {
    hide Sound, Bid, MayBid;
    match op {
      case DoBid(_, p, price, _, wall) => LateBid(m, k, p, price, wall);
      case DoServerBid(_, price, wall) => LateBid(m, k, 0, price, wall);
    }
  }

  /** Over every run, as long as an auction already won has not been paid out, its entry differs from the one
      that was won only by the last bid taken: the first winner's money reaches the seller exactly when the
      last bid is his own. */
  lemma {:induction false} LastBidderPays(m: Market, ops: seq<Op>, k: Key)
    requires Valid(m) && k in m.auctions && m.auctions[k].Pending()
    requires forall i :: 0 <= i < |ops| ==> ops[i].Sane()
    ensures var m' := Run(m, ops);
            && m.nextAuction <= m'.nextAuction
            && (k in m'.auctions ==>
                  && m'.auctions[k].Pending()
                  && m'.auctions[k] == m.auctions[k].(bidder := LastBid(m, ops, k).0, bid := LastBid(m, ops, k).1,
                                                      moneyDeliveryTime := m'.auctions[k].moneyDeliveryTime))
  {
    hide Valid, Apply, Taken, Named;
    UnfoldValid(m);
    SoundEntry(m, k);
    hide Sound, Capped, Fair, Lawful, Solvent, Balanced;
    if ops != [] {
      var before, op := ops[..|ops| - 1], ops[|ops| - 1];
      LastBidderPays(m, before, k);
      RunValid(m, before);
      var m1 := Run(m, before);
      UnfoldValid(m1);
      if Taken(m1, op, k) {
        TakenThere(m1, op, k);
        TakenIsLate(m1, op, k);
      } else {
        OthersKeepEntry(m1, op, k);
      }
    }
  }

  lemma TakenThere(m: Market, op: Op, k: Key)
    requires Taken(m, op, k)
    ensures k in m.auctions
  {
  }

  /** When the tick after the hour pays the seller, the money is the last bid taken, less the cut. */
  lemma LastBidIsDelivered(m: Market, ops: seq<Op>, k: Key, order: seq<Key>, now: int, wall: nat)
    requires Valid(m) && k in m.auctions && m.auctions[k].Pending() && NoRepeats(order) && k in order
    requires forall i :: 0 <= i < |ops| ==> ops[i].Sane()
    requires var m1 := Run(m, ops);
             k in m1.auctions && now > m1.auctions[k].moneyDeliveryTime && m.auctions[k].owner in m1.money
    ensures var e, m' := m.auctions[k], TickAll(Run(m, ops), order, now, wall);
            && k !in m'.auctions
            && Letter(e.owner, Successful,
                      LastBid(m, ops, k).1 + e.deposit - e.(bid := LastBid(m, ops, k).1).Cut(), 0) in m'.mail
  {
    hide Run, TickAll, Valid, NoRepeats, LastBid;
    LastBidderPays(m, ops, k);
    RunValid(m, ops);
    TickAt(Run(m, ops), order, now, wall, k);
  }
}
