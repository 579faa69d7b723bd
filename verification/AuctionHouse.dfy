/** The auction house in place: the handlers and the update loop change the purses, the mail, the auctions
    and the item index step by step, and each is proved to be the operation of module `Auctions`. */
module AuctionHouse {
  import opened Auctions
  import opened Machine
  import opened Ordering

  const MAX_AUCTION_HOUSE_TYPE := 3

  datatype Answer =
    | Ignored | AuctionOk | ErrBidOwn | ErrHigherBid | ErrBidIncrement | ErrInventory | ErrDatabase

  // ---------------------------------------------------------------- the order of a map walk

  /** House by house, and by ascending id in each. */
  predicate InTurn(order: seq<Key>) {
    forall i, j :: 0 <= i < j < |order| ==>
      order[i].house < order[j].house || (order[i].house == order[j].house && order[i].id < order[j].id)
  }

  lemma {:induction false} TickAllConcat(m: Market, a: seq<Key>, b: seq<Key>, now: int, wall: nat)
    ensures TickAll(m, a + b, now, wall) == TickAll(TickAll(m, a, now, wall), b, now, wall)
  {
    if b == [] {
      assert a + b == a;
    } else {
      assert (a + b)[..|a + b| - 1] == a + b[..|b| - 1];
      TickAllConcat(m, a, b[..|b| - 1], now, wall);
    }
  }

  lemma TickAllNext(m: Market, order: seq<Key>, k: Key, now: int, wall: nat)
    ensures TickAll(m, order + [k], now, wall) == TickOne(TickAll(m, order, now, wall), k, now, wall)
  {
    assert (order + [k])[..|order + [k]| - 1] == order;
  }

  lemma SellAllNext(m: Market, p: nat, terms: Terms, offers: seq<Offer>, i: nat)
    requires i < |offers| && p in m.money
    ensures SellAll(m, p, terms, offers[..i + 1]) == SellOne(SellAll(m, p, terms, offers[..i]), p, terms, offers[i])
  {
    assert offers[..i + 1][..i] == offers[..i];
  }

  class AuctionHouseMgr {
    var money: map<nat, int>
    var mail: seq<Letter>
    var auctionsMap: map<Key, Entry>
    var mAitems: set<nat>
    var nextAuction: nat
    var nextItem: nat
    ghost var sink: int
    ghost var minted: int
    ghost var listed: set<nat>
    ghost var destroyed: multiset<nat>

    ghost function S(): (m: Market)
      reads this
      ensures m.money == money && m.mail == mail && m.auctions == auctionsMap && m.items == mAitems
      ensures m.nextAuction == nextAuction && m.nextItem == nextItem
      ensures m.sink == sink && m.minted == minted && m.listed == listed && m.destroyed == destroyed
    {
      Market(money, mail, auctionsMap, mAitems, nextAuction, nextItem, sink, minted, listed, destroyed)
    }

    constructor (purses: map<nat, int>)
      requires Solvent(purses)
      ensures Valid(S()) && money == purses && mail == [] && auctionsMap == map[]
    {
      money, mail, auctionsMap, mAitems, nextAuction, nextItem := purses, [], map[], {}, 1, 1;
      sink, minted, listed, destroyed := 0, Purses(purses, Everyone), {}, multiset{};
      new;
      hide *;
      EmptyValid(purses);
      assert S() == Market(purses, [], map[], {}, 1, 1, 0, Purses(purses, Everyone), {}, multiset{});
    }

    method ModifyMoney(p: nat, d: int)
      requires p in money
      modifies this`money
      ensures S() == Modify(old(S()), p, d)
      ensures 0 <= old(money[p]) <= 9999999999 ==>
                var sum := old(money[p]) + d;
                money == old(money)[p := if sum < 0 then 0 else if sum > 9999999999 then 9999999999 else sum]
    {
      if d < 0 {
        money := money[p := if money[p] > -d then money[p] + d else 0];
      } else {
        money := money[p := if money[p] < MAX_MONEY_AMOUNT - d then money[p] + d else MAX_MONEY_AMOUNT];
      }
    }

    // -------------------------------------------------------------- the item index

    method AddAItem(item: nat)
      requires item !in mAitems
      modifies this`mAitems
      ensures mAitems == old(mAitems) + {item}
    {
      mAitems := mAitems + {item};
    }

    method RemoveAItem(item: nat) returns (found: bool)
      modifies this`mAitems
      ensures found <==> item in old(mAitems)
      ensures mAitems == old(mAitems) - {item}
    {
      if item !in mAitems {
        return false;
      }
      mAitems := mAitems - {item};
      return true;
    }

    // -------------------------------------------------------------- letters

    method SendAuctionOutbiddedMail(k: Key)
      requires k in auctionsMap
      modifies this`mail, this`sink
      ensures S() == SendMoney(old(S()), auctionsMap[k].bidder, OutBidded, auctionsMap[k].bid)
    {
      var auction := auctionsMap[k];
      if auction.bidder in money {
        mail := mail + [Letter(auction.bidder, OutBidded, auction.bid, 0)];
      } else {
        sink := sink + auction.bid;
      }
    }

    method SendAuctionCancelledToBidderMail(k: Key)
      requires k in auctionsMap
      modifies this`mail, this`sink
      ensures S() == SendMoney(old(S()), auctionsMap[k].bidder, CancelledToBidder, auctionsMap[k].bid)
    {
      var auction := auctionsMap[k];
      if auction.bidder in money {
        mail := mail + [Letter(auction.bidder, CancelledToBidder, auction.bid, 0)];
      } else {
        sink := sink + auction.bid;
      }
    }

    method SendAuctionWonMail(k: Key)
      requires k in auctionsMap
      modifies this
      ensures var m, e := old(S()), old(auctionsMap[k]);
              S() == if e.item !in m.items then m else Put(SendItem(m, e.bidder, Won, e.item), k, e.(item := 0))
    {
      var item := auctionsMap[k].item;
      if item !in mAitems {
        return;
      }
      var bidder := auctionsMap[k].bidder;
      if bidder in money {
        var _ := RemoveAItem(item);
        auctionsMap := auctionsMap[k := auctionsMap[k].(item := 0)];
        mail := mail + [Letter(bidder, Won, 0, item)];
      } else {
        var _ := RemoveAItem(item);
        auctionsMap := auctionsMap[k := auctionsMap[k].(item := 0)];
        destroyed := destroyed + multiset{item};
      }
    }

    /** The letter only; the entry is erased by the caller. */
    method SendAuctionSuccessfulMail(k: Key)
      requires k in auctionsMap
      modifies this`mail, this`sink, this`minted
      ensures S().(auctions := auctionsMap - {k}) == Deliver(old(S()), k)
    {
      var auction := auctionsMap[k];
      minted := minted + if auction.bidder == 0 then auction.bid else 0;
      if auction.owner in money {
        var auctionCut := auction.Cut();
        var profit := auction.bid + auction.deposit - auctionCut;
        mail := mail + [Letter(auction.owner, Successful, profit, 0)];
        sink := sink + auctionCut;
      } else {
        sink := sink + auction.bid + auction.deposit;
      }
    }

    method SendAuctionExpiredMail(k: Key)
      requires k in auctionsMap
      modifies this
      ensures S().(auctions := auctionsMap - {k}, sink := sink + old(auctionsMap[k]).deposit) == Expire(old(S()), k)
      ensures k in auctionsMap
    {
      var auction := auctionsMap[k];
      if auction.item !in mAitems {
        return;
      }
      if auction.owner in money {
        var _ := RemoveAItem(auction.item);
        auctionsMap := auctionsMap[k := auction.(item := 0)];
        mail := mail + [Letter(auction.owner, Expired, 0, auction.item)];
      } else {
        var _ := RemoveAItem(auction.item);
        auctionsMap := auctionsMap[k := auction.(item := 0)];
        destroyed := destroyed + multiset{auction.item};
      }
      assert auctionsMap - {k} == old(auctionsMap) - {k};
    }

    // -------------------------------------------------------------- bids

    method AuctionBidWinning(k: Key, wall: nat)
      requires k in auctionsMap
      modifies this
      ensures S() == Win(old(S()), k, wall)
    {
      auctionsMap := auctionsMap[k := auctionsMap[k].(moneyDeliveryTime := wall + HOUR)];
      ghost var e := auctionsMap[k];
      SendAuctionWonMail(k);
      assert old(auctionsMap)[k := e][k := e.(item := 0)] == old(auctionsMap)[k := e.(item := 0)];
    }

    /** `newbidder` is 0 for a generated bid; the result is false for a buyout. */
    method UpdateBid(k: Key, price: nat, newbidder: nat, wall: nat) returns (normal: bool)
      requires k in auctionsMap && (newbidder != 0 ==> newbidder in money)
      modifies this
      ensures S() == Bid(old(S()), k, newbidder, price, wall)
      ensures normal <==> (old(auctionsMap[k]).buyout == 0 || price < old(auctionsMap[k]).buyout)
    {
      hide *;
      ghost var m, e := S(), auctionsMap[k];
      BidSteps(m, k, newbidder, price, wall);
      var newbid := price;
      if auctionsMap[k].buyout != 0 && newbid > auctionsMap[k].buyout {
        newbid := auctionsMap[k].buyout;
      }
      SettleSteps(m, e, newbidder, newbid);
      if newbidder != 0 && newbidder == auctionsMap[k].bidder {
        ModifyMoney(newbidder, -(newbid - auctionsMap[k].bid));
      } else {
        if newbidder != 0 {
          ModifyMoney(newbidder, -(newbid as int));
        }
        if auctionsMap[k].bidder != 0 {
          SendAuctionOutbiddedMail(k);
        }
      }
      assert S() == Settle(m, e, newbidder, newbid);
      assert auctionsMap == m.auctions;
      auctionsMap := auctionsMap[k := auctionsMap[k].(bidder := newbidder)];
      auctionsMap := auctionsMap[k := auctionsMap[k].(bid := newbid)];
      if newbid < auctionsMap[k].buyout || auctionsMap[k].buyout == 0 {
        normal := true;
      } else {
        AuctionBidWinning(k, wall);
        normal := false;
      }
    }

    lemma BidSteps(m: Market, k: Key, bidder: nat, price: nat, wall: nat)
      requires k in m.auctions && (bidder != 0 ==> bidder in m.money)
      ensures var e := m.auctions[k];
              var bid := if e.buyout != 0 && price > e.buyout then e.buyout else price;
              var m2 := Settle(m, e, bidder, bid).(auctions :=
                          m.auctions[k := e.(bidder := bidder)][k := e.(bidder := bidder, bid := bid)]);
              Bid(m, k, bidder, price, wall) == if bid < e.buyout || e.buyout == 0 then m2 else Win(m2, k, wall)
    {
      var e, bid := m.auctions[k], Clipped(m.auctions[k], price);
      assert m.auctions[k := e.(bidder := bidder)][k := e.(bidder := bidder, bid := bid)] ==
             m.auctions[k := e.(bidder := bidder, bid := bid)];
      SettleAuctions(m, e, bidder, bid);
      hide Settle, Win;
    }

    lemma SettleAuctions(m: Market, e: Entry, bidder: nat, bid: nat)
      requires bidder != 0 ==> bidder in m.money
      ensures Settle(m, e, bidder, bid).auctions == m.auctions
    {
    }

    lemma SettleSteps(m: Market, e: Entry, bidder: nat, bid: nat)
      requires bidder != 0 ==> bidder in m.money
      ensures bidder != 0 && bidder == e.bidder ==> Settle(m, e, bidder, bid) == Modify(m, bidder, -(bid - e.bid))
      ensures !(bidder != 0 && bidder == e.bidder) ==>
              var paid := if bidder != 0 then Modify(m, bidder, -(bid as int)) else m;
              && Settle(m, e, bidder, bid) ==
                   (if e.bidder != 0 then SendMoney(paid, e.bidder, OutBidded, e.bid) else paid)
              && paid.auctions == m.auctions
    {
      hide Modified, SendMoney;
    }

    method HandleAuctionPlaceBid(k: Key, p: nat, price: nat, ownAccount: bool, wall: nat) returns (answer: Answer)
      requires Valid(S()) && p in money
      modifies this
      ensures Valid(S()) && S() == PlaceBid(old(S()), k, p, price, ownAccount, wall)
      ensures answer == AuctionOk <==> MayBid(old(S()), k, p, price, ownAccount)
      ensures answer == AuctionOk <==>
                && k.id != 0 && price != 0 && k in old(auctionsMap) && !ownAccount
                && var e := old(auctionsMap[k]);
                   && e.owner != p && e.bid < price && e.startbid <= price <= old(money[p])
                   && ((e.buyout != 0 && price >= e.buyout) || (price - e.bid) / 5 >= e.bid / 100)
      ensures answer != AuctionOk ==> S() == old(S())
      ensures answer == AuctionOk ==> TakenAs(old(S()), S(), k, p, price, wall)
    {
      hide *;
      ghost var m := S();
      Rejected(m, k, p, price, ownAccount, wall);
      if k in m.auctions { RaiseExactly(m.auctions[k], price); }
      if k.id == 0 || price == 0 {
        return Ignored;
      }
      if k !in auctionsMap || auctionsMap[k].owner == p {
        return ErrBidOwn;
      }
      if ownAccount {
        return ErrBidOwn;
      }
      var auction := auctionsMap[k];
      if price <= auction.bid {
        return ErrHigherBid;
      }
      if (price < auction.buyout || auction.buyout == 0) && price < auction.bid + auction.OutBid() {
        return ErrBidIncrement;
      }
      if price > money[p] {
        return Ignored;
      }
      if price < auction.startbid {
        return Ignored;
      }
      Accepted(m, k, p, price, ownAccount, wall);
      AcceptedExactly(m, k, p, price, wall);
      var _ := UpdateBid(k, price, p, wall);
      return AuctionOk;
    }

    /** The raise asked for: a step of five copper for every whole hundred of the bid, and at least one copper. */
    lemma RaiseExactly(e: Entry, price: nat)
      ensures price >= e.bid + e.OutBid() <==> price > e.bid && (price - e.bid) / 5 >= e.bid / 100
    {
    }

    /** A raise that is enough is a twentieth of the bid, short of less than five copper; a twentieth is enough. */
    lemma RaiseIsTwentieth(e: Entry, price: nat)
      ensures price >= e.bid + e.OutBid() ==> price > e.bid && 100 * (price - e.bid) >= 5 * e.bid - 495
      ensures price > e.bid && 100 * (price - e.bid) >= 5 * e.bid ==> price >= e.bid + e.OutBid()
    {
    }

    lemma SettleExactly(m: Market, e: Entry, p: nat, bid: nat)
      requires p in m.money && p != 0 && bid <= m.money[p] && e.bid <= bid
      requires 0 <= m.money[p] <= MAX_MONEY_AMOUNT
      ensures Settle(m, e, p, bid) ==
              m.(money := m.money[p := m.money[p] - (if e.bidder == p then bid - e.bid else bid)],
                 mail := m.mail + (if e.bidder !in {0, p} && e.bidder in m.money
                                   then [Letter(e.bidder, OutBidded, e.bid, 0)] else []),
                 sink := m.sink + (if e.bidder !in {0, p} && e.bidder !in m.money then e.bid else 0))
    {
    }

    /** The whole effect of an accepted bid. */
    ghost predicate TakenAs(m: Market, m': Market, k: Key, p: nat, price: nat, wall: nat)
      requires k in m.auctions && p in m.money
    {
      var e := m.auctions[k];
      var won := e.buyout != 0 && price >= e.buyout;
      var bid := if won then e.buyout else price;
      && m'.money == m.money[p := m.money[p] - (if e.bidder == p then bid - e.bid else bid)]
      && m'.auctions == m.auctions[k := e.(
           bidder := p, bid := bid, item := if won then 0 else e.item,
           moneyDeliveryTime := if won then wall + 3600 else e.moneyDeliveryTime)]
      && m'.mail == m.mail +
           (if e.bidder !in {0, p} && e.bidder in m.money then [Letter(e.bidder, OutBidded, e.bid, 0)] else []) +
           (if won && e.item != 0 then [Letter(p, Won, 0, e.item)] else [])
    }

    lemma AcceptedExactly(m: Market, k: Key, p: nat, price: nat, wall: nat)
      requires Valid(m) && p in m.money && p != 0 && k in m.auctions
      requires m.auctions[k].bid < price <= m.money[p]
      ensures TakenAs(m, Bid(m, k, p, price, wall), k, p, price, wall)
    {
      var e, bid := m.auctions[k], Clipped(m.auctions[k], price);
      UnfoldValid(m);
      SoundEntry(m, k);
      SettleExactly(m, e, p, bid);
      hide Valid, Sound, Lawful, Solvent, Balanced, Settle, Capped, Fair;
    }

    /** The tests of the handler, one by one, are the guards of a bid. */
    lemma Rejected(m: Market, k: Key, p: nat, price: nat, ownAccount: bool, wall: nat)
      requires Valid(m) && p in m.money
      ensures MayBid(m, k, p, price, ownAccount) <==>
              && !(k.id == 0 || price == 0)
              && !(k !in m.auctions || m.auctions[k].owner == p)
              && !ownAccount
              && !(price <= m.auctions[k].bid)
              && !((price < m.auctions[k].buyout || m.auctions[k].buyout == 0) &&
                   price < m.auctions[k].bid + m.auctions[k].OutBid())
              && !(price > m.money[p])
              && !(price < m.auctions[k].startbid)
      ensures !MayBid(m, k, p, price, ownAccount) ==> PlaceBid(m, k, p, price, ownAccount, wall) == m
    {
      hide Valid;
    }

    lemma Accepted(m: Market, k: Key, p: nat, price: nat, ownAccount: bool, wall: nat)
      requires Valid(m) && p in m.money && MayBid(m, k, p, price, ownAccount)
      ensures p != 0 && k in m.auctions
      ensures PlaceBid(m, k, p, price, ownAccount, wall) == Bid(m, k, p, price, wall)
      ensures Valid(PlaceBid(m, k, p, price, ownAccount, wall))
    {
      UnfoldValid(m);
      BidValid(m, k, p, price, wall);
      hide Valid, Bid;
    }

    // -------------------------------------------------------------- cancelling

    method HandleAuctionRemoveItem(k: Key, p: nat) returns (answer: Answer)
      requires Valid(S()) && p in money
      modifies this
      ensures Valid(S()) && S() == Cancel(old(S()), k, p)
      ensures answer == AuctionOk <==> MayCancel(old(S()), k, p)
      ensures answer == AuctionOk <==>
                && k in old(auctionsMap)
                && var e := old(auctionsMap[k]);
                   && e.owner == p && e.item in old(mAitems)
                   && (e.bid != 0 ==> old(money[p]) >= (e.cutRate * e.bid as real).Floor)
      ensures answer != AuctionOk ==> S() == old(S())
      ensures answer == AuctionOk ==>
                k in old(auctionsMap) && CancelledAs(old(S()), S(), k, p)
    {
      hide *;
      ghost var m := S();
      CancelValid(m, k, p);
      CancelSteps(m, k, p);
      CancelExactly(m, k, p);
      if k !in auctionsMap || auctionsMap[k].owner != p {
        return ErrDatabase;
      }
      var auction := auctionsMap[k];
      if auction.item !in mAitems {
        return ErrInventory;
      }
      if auction.bid != 0 {
        var auctionCut := auction.Cut();
        if money[p] < auctionCut {
          return Ignored;
        }
        if auction.bidder != 0 {
          SendAuctionCancelledToBidderMail(k);
        }
        ModifyMoney(p, -auctionCut);
        sink := sink + auctionCut;
      }
      mail := mail + [Letter(p, Cancelled, 0, auction.item)];
      var _ := RemoveAItem(auction.item);
      auctionsMap := auctionsMap - {k};
      sink := sink + auction.deposit;
      return AuctionOk;
    }

    /** The whole effect of a cancellation, with the cut a payment that the purse covers. */
    ghost predicate CancelledFor(m: Market, m': Market, k: Key, p: nat, cut: int)
      requires k in m.auctions && p in m.money
    {
      var e := m.auctions[k];
      && m'.auctions == m.auctions - {k} && m'.items == m.items - {e.item}
      && m'.money == (if e.bid == 0 then m.money else m.money[p := m.money[p] - cut])
      && m'.mail == m.mail +
           (if e.bid != 0 && e.bidder != 0 && e.bidder in m.money
            then [Letter(e.bidder, CancelledToBidder, e.bid, 0)] else []) +
           [Letter(p, Cancelled, 0, e.item)]
    }

    ghost predicate CancelledAs(m: Market, m': Market, k: Key, p: nat)
      requires k in m.auctions && p in m.money
    {
      var e := m.auctions[k];
      CancelledFor(m, m', k, p, (e.cutRate * e.bid as real).Floor)
    }

    lemma CancelExactly(m: Market, k: Key, p: nat)
      requires Valid(m) && p in m.money
      ensures k in m.auctions ==> m.auctions[k].Cut() == (m.auctions[k].cutRate * m.auctions[k].bid as real).Floor
      ensures MayCancel(m, k, p) ==>
                k in m.auctions && CancelledAs(m, Cancel(m, k, p), k, p)
    {
      hide Valid, Cancel;
      if MayCancel(m, k, p) {
        CutCovered(m, k, p);
        CancelShape(m, k, p);
        ByItsCut(m, Cancel(m, k, p), k, p);
      }
    }

    lemma ByItsCut(m: Market, m': Market, k: Key, p: nat)
      requires k in m.auctions && p in m.money && CancelledFor(m, m', k, p, m.auctions[k].Cut())
      ensures CancelledAs(m, m', k, p)
    {
      var e := m.auctions[k];
      assert e.Cut() == (e.cutRate * e.bid as real).Floor;
    }

    lemma CutCovered(m: Market, k: Key, p: nat)
      requires Valid(m) && p in m.money && MayCancel(m, k, p)
      ensures var e := m.auctions[k];
              e.bid != 0 ==> Modified(m.money[p], -e.Cut()) == m.money[p] - e.Cut()
    {
      UnfoldValid(m);
      SoundEntry(m, k);
      CutIsShare(m.auctions[k]);
      hide Valid, Sound, Lawful, Balanced, Capped, Fair;
      if m.auctions[k].bid != 0 { Covered(m.money[p], m.auctions[k].Cut()); }
    }

    lemma CancelShape(m: Market, k: Key, p: nat)
      requires p in m.money && MayCancel(m, k, p)
      requires m.auctions[k].bid != 0 ==>
                 Modified(m.money[p], -m.auctions[k].Cut()) == m.money[p] - m.auctions[k].Cut()
      ensures CancelledFor(m, Cancel(m, k, p), k, p, m.auctions[k].Cut())
    {
      hide Modified, Entry.Cut;
    }

    lemma Covered(have: int, d: int)
      requires 0 <= d <= have <= MAX_MONEY_AMOUNT
      ensures Modified(have, -d) == have - d
    {
    }

    lemma CancelSteps(m: Market, k: Key, p: nat)
      requires p in m.money
      ensures MayCancel(m, k, p) <==>
              && k in m.auctions && m.auctions[k].owner == p && m.auctions[k].item in m.items
              && !(m.auctions[k].bid != 0 && m.money[p] < m.auctions[k].Cut())
      ensures !MayCancel(m, k, p) ==> Cancel(m, k, p) == m
      ensures MayCancel(m, k, p) ==>
              var e := m.auctions[k];
              var m1 := if e.bid != 0 && e.bidder != 0 then SendMoney(m, e.bidder, CancelledToBidder, e.bid) else m;
              && p in m1.money && m1.auctions == m.auctions && m1.items == m.items
              && var m2 := if e.bid != 0 then Modify(m1, p, -e.Cut()) else m1;
                 && m2.auctions == m.auctions && m2.items == m.items
                 && Cancel(m, k, p) == m2.(
                      mail := m2.mail + [Letter(p, Cancelled, 0, e.item)],
                      items := m.items - {e.item},
                      auctions := m.auctions - {k},
                      sink := m2.sink + (if e.bid != 0 then e.Cut() else 0) + e.deposit)
    {
      hide Modified;
    }

    // -------------------------------------------------------------- selling

    /** The item is the clone that was just made. */
    method AddAuction(house: nat, entry: Entry)
      requires nextItem !in mAitems
      modifies this
      ensures S() == List(old(S()), house, entry)
    {
      var item := nextItem;
      nextItem := nextItem + 1;
      listed := listed + {item};
      var id := nextAuction;
      nextAuction := nextAuction + 1;
      auctionsMap := auctionsMap[Key(house, id) := entry.(item := item)];
      AddAItem(item);
    }

    /** A fresh auction on these terms. */
    ghost predicate Opened(e: Entry, p: nat, terms: Terms) {
      && e.owner == p && e.startbid == terms.startbid && e.buyout == terms.buyout
      && e.bid == 0 && e.bidder == 0 && e.moneyDeliveryTime == 0 && e.cutRate == terms.cutRate
      && e.expireTime == terms.clock + (terms.seconds as real * terms.timeRate).Floor
    }

    method SellItem(p: nat, terms: Terms, offer: Offer)
      requires Valid(S()) && p in money && 0.0 <= terms.cutRate <= 1.0
      modifies this
      ensures Valid(S()) && p in money && S() == SellOne(old(S()), p, terms, offer)
      ensures if offer.guid == 0 || offer.guid in old(mAitems) || !offer.sellable || old(money[p]) < offer.deposit
              then S() == old(S())
              else
                && money == old(money)[p := old(money[p]) - offer.deposit] && mail == old(mail)
                && mAitems == old(mAitems) + {old(nextItem)}
                && (exists e: Entry ::
                      && e.item == old(nextItem) && e.deposit == offer.deposit && Opened(e, p, terms)
                      && auctionsMap == old(auctionsMap)[Key(terms.house, old(nextAuction)) := e])
    {
      ghost var m := S();
      SellOneValid(m, p, terms, offer);
      UnfoldValid(m);
      FreshKey(m, terms.house);
      hide Valid, Sound, Lawful, Solvent, Balanced, Modified;
      if offer.guid == 0 {
        return;
      }
      if offer.guid in mAitems {
        return;
      }
      if !offer.sellable {
        return;
      }
      if money[p] < offer.deposit {
        return;
      }
      ModifyMoney(p, -(offer.deposit as int));
      AddAuction(terms.house, NewEntry(p, terms, offer.deposit));
    }

    method HandleAuctionSellItem(p: nat, terms: Terms, minutes: nat, offers: seq<Offer>)
      requires Valid(S()) && p in money && 0.0 <= terms.cutRate <= 1.0
      modifies this
      ensures Valid(S()) && S() == Sell(old(S()), p, terms, minutes, offers)
      ensures var seconds := minutes * 60 % 0x1_0000_0000;
              S() == if terms.startbid > 0 && |offers| <= 180 && seconds in {43200, 86400, 172800}
                     then SellAll(old(S()), p, terms.(seconds := seconds), offers) else old(S())
      ensures forall k :: k in auctionsMap && k !in old(auctionsMap) ==>
                var e, seconds := auctionsMap[k], minutes * 60 % 0x1_0000_0000;
                && k.house == terms.house && e.owner == p && e.startbid == terms.startbid && e.buyout == terms.buyout
                && e.bid == 0 && e.bidder == 0 && e.moneyDeliveryTime == 0 && e.cutRate == terms.cutRate
                && seconds in {43200, 86400, 172800}
                && e.expireTime == terms.clock + (seconds as real * terms.timeRate).Floor
    {
      hide Valid, SellAll, SellOne;
      if |offers| > MAX_BAG_SIZE * 5 {
        return;
      }
      if terms.startbid == 0 || minutes == 0 {
        return;
      }
      var seconds := minutes * MINUTE % UINT32_LIMIT;
      if !GoodTime(seconds) {
        return;
      }
      var timed := terms.(seconds := seconds);
      ghost var m := S();
      var i := 0;
      SellNone(m, p, timed, offers);
      while i < |offers|
        invariant 0 <= i <= |offers|
        invariant Valid(S()) && p in money
        invariant S() == SellAll(m, p, timed, offers[..i])
        invariant forall j :: j in auctionsMap && j !in m.auctions ==>
                    Opened(auctionsMap[j], p, timed) && j.house == terms.house
      {
        SellAllNext(m, p, timed, offers, i);
        SellItem(p, timed, offers[i]);
        i := i + 1;
      }
      assert offers[..|offers|] == offers;
    }

    lemma SellNone(m: Market, p: nat, terms: Terms, offers: seq<Offer>)
      requires p in m.money
      ensures SellAll(m, p, terms, offers[..0]) == m
    {
    }

    // -------------------------------------------------------------- the update loop

    /** One turn of the walk over an auction map. */
    method UpdateAuction(k: Key, curTime: int, wall: nat)
      requires Valid(S()) && k in auctionsMap
      modifies this
      ensures Valid(S()) && S() == TickOne(old(S()), k, curTime, wall)
      ensures TurnedAs(old(S()), S(), k, curTime, wall)
    {
      hide *;
      ghost var m := S();
      TickSteps(m, k, curTime, wall);
      TurnExactly(m, k, curTime, wall);
      var auction := auctionsMap[k];
      if auction.moneyDeliveryTime != 0 {
        if curTime > auction.moneyDeliveryTime {
          SendAuctionSuccessfulMail(k);
          assert auctionsMap[k].item == 0;                  // already removed or sent by mail when won
          auctionsMap := auctionsMap - {k};
        }
      } else {
        if curTime > auction.expireTime {
          if auction.bid != 0 {
            AuctionBidWinning(k, wall);
          } else {
            SendAuctionExpiredMail(k);
            auctionsMap := auctionsMap - {k};
            sink := sink + auction.deposit;
          }
        }
      }
    }

    /** The whole effect of one turn, with the cut. */
    ghost predicate TurnedFor(m: Market, m': Market, k: Key, now: int, wall: nat, cut: int)
      requires k in m.auctions
    {
      var e := m.auctions[k];
      if e.moneyDeliveryTime != 0 && now > e.moneyDeliveryTime then
        && m'.auctions == m.auctions - {k} && m'.money == m.money
        && m'.mail == m.mail + (if e.owner !in m.money then [] else
             [Letter(e.owner, Successful, e.bid + e.deposit - cut, 0)])
      else if e.moneyDeliveryTime == 0 && now > e.expireTime && e.bid != 0 then
        && m'.auctions == m.auctions[k := e.(moneyDeliveryTime := wall + 3600, item := 0)] && m'.money == m.money
        && m'.mail == m.mail + (if e.bidder in m.money then [Letter(e.bidder, Won, 0, e.item)] else [])
      else if e.moneyDeliveryTime == 0 && now > e.expireTime then
        && m'.auctions == m.auctions - {k} && m'.money == m.money
        && m'.mail == m.mail + (if e.owner in m.money then [Letter(e.owner, Expired, 0, e.item)] else [])
      else m' == m
    }

    ghost predicate TurnedAs(m: Market, m': Market, k: Key, now: int, wall: nat)
      requires k in m.auctions
    {
      var e := m.auctions[k];
      TurnedFor(m, m', k, now, wall, (e.cutRate * e.bid as real).Floor)
    }

    lemma TurnExactly(m: Market, k: Key, now: int, wall: nat)
      requires Valid(m) && k in m.auctions
      ensures TurnedAs(m, TickOne(m, k, now, wall), k, now, wall)
    {
      hide *;
      TurnShape(m, k, now, wall);
      TurnedByItsCut(m, TickOne(m, k, now, wall), k, now, wall);
    }

    lemma TurnedByItsCut(m: Market, m': Market, k: Key, now: int, wall: nat)
      requires k in m.auctions && TurnedFor(m, m', k, now, wall, m.auctions[k].Cut())
      ensures TurnedAs(m, m', k, now, wall)
    {
      var e := m.auctions[k];
      assert e.Cut() == (e.cutRate * e.bid as real).Floor;
    }

    lemma TurnShape(m: Market, k: Key, now: int, wall: nat)
      requires Valid(m) && k in m.auctions
      ensures TurnedFor(m, TickOne(m, k, now, wall), k, now, wall, m.auctions[k].Cut())
    {
      hide Entry.Cut;
      UnfoldValid(m);
      SoundEntry(m, k);
      hide Valid, Sound, Lawful, Balanced, Solvent, Capped, Fair;
    }

    lemma TickSteps(m: Market, k: Key, curTime: int, wall: nat)
      requires Valid(m) && k in m.auctions
      ensures Valid(TickOne(m, k, curTime, wall))
      ensures var e := m.auctions[k];
              && (e.moneyDeliveryTime != 0 ==> e.item == 0)
              && TickOne(m, k, curTime, wall) ==
                 if e.moneyDeliveryTime != 0 then
                   if curTime > e.moneyDeliveryTime then Deliver(m, k) else m
                 else if curTime > e.expireTime then
                   if e.bid != 0 then Win(m, k, wall) else Expire(m, k)
                 else m
    {
      TickOneValid(m, k, curTime, wall);
      UnfoldValid(m);
      SoundEntry(m, k);
      hide Valid, Sound, Lawful, Balanced, Deliver, Expire, Win, Solvent;
    }

    /** The walk visits the auctions of one house by ascending id. */
    method UpdateHouse(house: nat, curTime: int, wall: nat) returns (order: seq<Key>)
      requires Valid(S())
      modifies this
      ensures Valid(S()) && S() == TickAll(old(S()), order, curTime, wall)
      ensures InTurn(order)
      ensures forall k :: k in order <==> k in old(auctionsMap) && k.house == house
    {
      ghost var m := S();
      var todo := set k | k in auctionsMap && k.house == house :: k.id;
      order := [];
      TickNone(m, curTime, wall);
      hide Valid, TickAll, TickOne;
      while todo != {}
        invariant Valid(S()) && S() == TickAll(m, order, curTime, wall)
        invariant InTurn(order)
        invariant forall k, id :: k in order && id in todo ==> k.id < id
        invariant forall k :: k in order || (k.house == house && k.id in todo) <==> k in m.auctions && k.house == house
        invariant forall id :: id in todo ==> Key(house, id) in auctionsMap
        decreases todo
      {
        var id := Least(todo);
        var k := Key(house, id);
        TickAllNext(m, order, k, curTime, wall);
        OthersStay(S(), k, curTime, wall);
        UpdateAuction(k, curTime, wall);
        todo := todo - {id};
        order := order + [k];
      }
    }

    lemma NextHouse(order: seq<Key>, done: seq<Key>, house: nat)
      requires InTurn(order) && InTurn(done)
      requires forall k :: k in order ==> k.house < house
      requires forall k :: k in done ==> k.house == house
      ensures InTurn(order + done)
    {
      assert forall i :: 0 <= i < |order| ==> order[i] in order;
      assert forall i :: 0 <= i < |done| ==> done[i] in done;
    }

    lemma TickNone(m: Market, curTime: int, wall: nat)
      ensures TickAll(m, [], curTime, wall) == m
    {
    }

    lemma OthersStay(m: Market, k: Key, curTime: int, wall: nat)
      requires Valid(m)
      ensures forall j :: j != k ==> (j in TickOne(m, k, curTime, wall).auctions <==> j in m.auctions)
    {
      UnfoldValid(m);
      TickOneExact(m, k, curTime, wall);
    }

    /** Every auction of every house gets exactly one turn, house by house and by ascending id. */
    method Update(curTime: int, wall: nat) returns (order: seq<Key>)
      requires Valid(S())
      modifies this
      ensures Valid(S()) && S() == TickAll(old(S()), order, curTime, wall)
      ensures InTurn(order) && NoRepeats(order)
      ensures forall k :: k in order <==> k in old(auctionsMap) && k.house < MAX_AUCTION_HOUSE_TYPE
      ensures forall k :: k in old(auctionsMap) && k.house < 3 ==> OneTurn(old(S()), S(), k, curTime, wall)
    {
      ghost var m := S();
      order := [];
      TickNone(m, curTime, wall);
      hide Valid, TickAll;
      var i := 0;
      while i < MAX_AUCTION_HOUSE_TYPE
        invariant 0 <= i <= MAX_AUCTION_HOUSE_TYPE
        invariant Valid(S()) && S() == TickAll(m, order, curTime, wall)
        invariant InTurn(order)
        invariant forall k :: k in order <==> k in m.auctions && k.house < i
        invariant forall k: Key :: k.house >= i ==> (k in auctionsMap <==> k in m.auctions)
      {
        ghost var before := S();
        var done := UpdateHouse(i, curTime, wall);
        TickAllConcat(m, order, done, curTime, wall);
        TickExact(before, done, curTime, wall);
        NextHouse(order, done, i);
        order := order + done;
        i := i + 1;
      }
      TickExact(m, order, curTime, wall);
    }

    /** An auction is gone when its money or, without a bid, its item was due; with a bid it waits for its money. */
    ghost predicate OneTurn(m: Market, m': Market, k: Key, now: int, wall: nat)
      requires k in m.auctions
    {
      var e := m.auctions[k];
      if now <= (if e.moneyDeliveryTime != 0 then e.moneyDeliveryTime else e.expireTime) then
        k in m'.auctions && m'.auctions[k] == e
      else if e.moneyDeliveryTime == 0 && e.bid != 0 then
        k in m'.auctions && m'.auctions[k] == e.(moneyDeliveryTime := wall + 3600, item := 0)
      else k !in m'.auctions
    }
  }
}
