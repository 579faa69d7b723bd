/** The calendar in place: stores and tables are changed entry by entry and statement by statement, and
    each operation is proved to be the one of modules `Calendars` and `CalendarLoading`. */
module CalendarManager {
  import opened CalendarRemap
  import opened Calendars
  import opened CalendarLoading
  import opened Ordering

  datatype RemapAction = DelExpired | RemapEvents | RemapInvites

  /** The ids taken so far come in order before those still to come. */
  ghost predicate Taking(keys: set<nat>, ids: seq<nat>, todo: set<nat>) {
    && Ascending(ids) && |ids| + |todo| == |keys|
    && (forall k :: k in keys <==> k in ids || k in todo)
    && (forall k, j :: k in ids && j in todo ==> k < j)
  }

  lemma TakeNone(keys: set<nat>)
    ensures Taking(keys, [], keys)
  {
  }

  lemma TakeOne(keys: set<nat>, ids: seq<nat>, todo: set<nat>, k: nat)
    requires Taking(keys, ids, todo) && k in todo && forall j :: j in todo ==> k <= j
    ensures Taking(keys, ids + [k], todo - {k})
  {
    assert forall i :: 0 <= i < |ids| ==> ids[i] in ids;
  }

  lemma TakeAll(keys: set<nat>, ids: seq<nat>)
    requires Taking(keys, ids, {})
    ensures Ascending(ids) && (forall k :: k in ids <==> k in keys) && |ids| == |keys|
  {
  }

  /** What ORDER BY returns. */
  method Ordered(keys: set<nat>) returns (ids: seq<nat>)
    ensures Ascending(ids) && (forall k :: k in ids <==> k in keys) && |ids| == |keys|
  {
    hide *;
    ids := [];
    var todo := keys;
    TakeNone(keys);
    while todo != {}
      invariant Taking(keys, ids, todo)
      decreases todo
    {
      var k := Least(todo);
      TakeOne(keys, ids, todo, k);
      todo := todo - {k};
      ids := ids + [k];
    }
    TakeAll(keys, ids);
  }

  class CalendarMgr {
    var eventStore: map<nat, Event>
    var inviteStore: map<nat, Invite>
    var eventTable: map<nat, EventRow>
    var inviteTable: map<nat, InviteRow>
    var eventGuids: nat
    var inviteGuids: nat

    ghost function S(): (c: Calendar)
      reads this
      ensures c.events == eventStore && c.invites == inviteStore
      ensures c.eventTable == eventTable && c.inviteTable == inviteTable
      ensures c.nextEvent == eventGuids && c.nextInvite == inviteGuids
    {
      Calendar(eventStore, inviteStore, eventTable, inviteTable, eventGuids, inviteGuids)
    }

    // -------------------------------------------------------------- renumbering the tables

    /** One UPDATE of the primary key; the database refuses an id that is in use. */
    method MoveEventId(g: Gee)
      requires Free(eventTable, g)
      modifies this`eventTable
      ensures eventTable == Move(old(eventTable), g)
    {
      if g.from in eventTable {
        eventTable := (eventTable - {g.from})[g.to := eventTable[g.from]];
      }
    }

    method MoveInviteId(g: Gee)
      requires Free(inviteTable, g)
      modifies this`inviteTable
      ensures inviteTable == Move(old(inviteTable), g)
    {
      if g.from in inviteTable {
        inviteTable := (inviteTable - {g.from})[g.to := inviteTable[g.from]];
      }
    }

    method RedirectInvites(g: Gee)
      modifies this`inviteTable
      ensures inviteTable == Redirected(old(inviteTable), [g])
    {
      inviteTable := map i | i in inviteTable :: inviteTable[i].(eventId := Redirect(inviteTable[i].eventId, g));
      assert RedirectAll(0, [g]) == Redirect(0, g);
      RedirectOne(old(inviteTable), g);
    }

    lemma RedirectOne(table: InviteTable, g: Gee)
      ensures (map i | i in table :: table[i].(eventId := Redirect(table[i].eventId, g))) == Redirected(table, [g])
    {
      forall i | i in table ensures RedirectAll(table[i].eventId, [g]) == Redirect(table[i].eventId, g) {
        RedirectMore(table[i].eventId, [], g);
        assert [] + [g] == [g];
      }
    }

    lemma RedirectedNext(table: InviteTable, remap: seq<Gee>, g: Gee)
      ensures Redirected(Redirected(table, remap), [g]) == Redirected(table, remap + [g])
    {
      forall i | i in table
        ensures RedirectAll(RedirectAll(table[i].eventId, remap), [g]) == RedirectAll(table[i].eventId, remap + [g])
      {
        RedirectMore(table[i].eventId, remap, g);
        RedirectMore(RedirectAll(table[i].eventId, remap), [], g);
        assert [] + [g] == [g];
      }
    }

    method DBRemap(action: RemapAction, remapData: seq<Gee>)
      requires action.RemapEvents? ==> CollisionFree(eventTable, remapData)
      requires action.RemapInvites? ==> CollisionFree(inviteTable, remapData)
      modifies this`eventTable, this`inviteTable
      ensures action.DelExpired? ==>
                && eventTable == old(eventTable) - DeadIn(remapData)
                && inviteTable == WithoutEvents(old(inviteTable), DeadIn(remapData))
      ensures action.RemapEvents? ==>
                && eventTable == MoveAll(old(eventTable), remapData)
                && inviteTable == Redirected(old(inviteTable), remapData)
      ensures action.RemapInvites? ==>
                && eventTable == old(eventTable)
                && inviteTable == MoveAll(old(inviteTable), remapData)
    {
      match action {
        case DelExpired => DeleteExpired(remapData);
        case RemapEvents => RenumberEvents(remapData);
        case RemapInvites => RenumberInvites(remapData);
      }
    }

    method DeleteExpired(remapData: seq<Gee>)
      modifies this`eventTable, this`inviteTable
      ensures eventTable == old(eventTable) - DeadIn(remapData)
      ensures inviteTable == WithoutEvents(old(inviteTable), DeadIn(remapData))
    {
      hide DeadIn;
      NoneDead();
      for i := 0 to |remapData|
        invariant eventTable == old(eventTable) - DeadIn(remapData[..i])
        invariant inviteTable == WithoutEvents(old(inviteTable), DeadIn(remapData[..i]))
      {
        var g := remapData[i];
        DeadNext(remapData[..i], g);
        assert remapData[..i + 1] == remapData[..i] + [g];
        if g.to != DELETED_ID {
          continue;
        }
        eventTable := eventTable - {g.from};
        inviteTable := WithoutEvents(inviteTable, {g.from});
      }
      assert remapData[..|remapData|] == remapData;
    }

    lemma NoneDead()
      ensures DeadIn([]) == {}
    {
    }

    method RenumberEvents(remapData: seq<Gee>)
      requires CollisionFree(eventTable, remapData)
      modifies this`eventTable, this`inviteTable
      ensures eventTable == MoveAll(old(eventTable), remapData)
      ensures inviteTable == Redirected(old(inviteTable), remapData)
    {
      hide *;
      MoveAllNone(eventTable);
      RedirectNone(inviteTable);
      assert remapData[..0] == [];
      for i := 0 to |remapData|
        invariant eventTable == MoveAll(old(eventTable), remapData[..i])
        invariant inviteTable == Redirected(old(inviteTable), remapData[..i])
      {
        var g := remapData[i];
        assert remapData[..i + 1] == remapData[..i] + [g];
        MoveAllNext(old(eventTable), remapData, i);
        RedirectedNext(old(inviteTable), remapData[..i], g);
        MoveEventId(g);
        RedirectInvites(g);
      }
      assert remapData[..|remapData|] == remapData;
    }

    lemma RedirectNone(table: InviteTable)
      ensures Redirected(table, []) == table
    {
    }

    method RenumberInvites(remapData: seq<Gee>)
      requires CollisionFree(inviteTable, remapData)
      modifies this`inviteTable
      ensures inviteTable == MoveAll(old(inviteTable), remapData)
    {
      hide *;
      MoveAllNone(inviteTable);
      assert remapData[..0] == [];
      for i := 0 to |remapData|
        invariant inviteTable == MoveAll(old(inviteTable), remapData[..i])
      {
        MoveAllNext(old(inviteTable), remapData, i);
        MoveInviteId(remapData[i]);
      }
      assert remapData[..|remapData|] == remapData;
    }

    method DBRemoveExpiredEventsAndRemapData(now: int, delay: int) returns (ghost keep: seq<nat>, ghost order: seq<nat>)
      requires 0 !in eventTable && 0 !in inviteTable && |eventTable| < DELETED_ID
      modifies this`eventTable, this`inviteTable
      ensures Remapped(old(eventTable), old(inviteTable), eventTable, inviteTable, keep, order, now, delay)
      ensures old(eventTable) == map[] ==> eventTable == map[] && inviteTable == old(inviteTable)
      ensures old(eventTable) != map[] ==>
                && EventsLeft(old(eventTable), eventTable, keep, now, delay)
                && InvitesLeft(old(eventTable), old(inviteTable), inviteTable, keep, order, now, delay)
    {
      hide Keep, Plan, Remaps, DeadIn, CollisionFree, MoveAll, Renumbering, Lists, Compact, Ranked;
      hide Redirected, WithoutEvents;
      keep, order := [], [];
      if eventTable == map[] {
        return;
      }
      ghost var dead := Dead(eventTable, now, delay);
      var ids := Ordered(eventTable.Keys);
      Listed(ids, eventTable);
      EventsRemapped(eventTable, ids, dead);
      keep := Keep(ids, dead);

      // prepare data
      var remapData, remapId := PrepareEvents(ids, now, delay);

      // delete expired events and related invites
      if remapId <= |remapData| {
        DBRemap(DelExpired, remapData);
      } else {
        KeepBound(ids, dead);
        NothingDead(eventTable, inviteTable, ids, dead);
      }
      ghost var invites := inviteTable;

      // remap event ids
      remapData := Remaps(remapData);
      if remapData != [] {
        DBRemap(RemapEvents, remapData);
      } else {
        NothingMoved(eventTable, inviteTable);
      }
      RedirectedIsRanked(invites, keep);

      // remap invite ids
      InviteKeys(old(inviteTable), dead, remapData);
      order := RemapInviteIds();
      RankedPositive(invites, keep);
      RemappedExactly(old(eventTable), old(inviteTable), eventTable, inviteTable, keep, order, now, delay);
    }

    lemma Listed<V>(ids: seq<nat>, table: map<nat, V>)
      requires Ascending(ids) && (forall k :: k in ids <==> k in table.Keys)
      ensures Lists(ids, table)
    {
    }

    lemma NothingDead(events: EventTable, invites: InviteTable, ids: seq<nat>, dead: set<nat>)
      requires Lists(ids, events) && dead <= events.Keys && |Keep(ids, dead)| == |ids|
      ensures dead == {} && events - dead == events && WithoutEvents(invites, dead) == invites
    {
      KeptAll(ids, dead);
    }

    lemma NothingMoved(events: EventTable, invites: InviteTable)
      ensures MoveAll(events, []) == events && Redirected(invites, []) == invites
    {
    }

    lemma InviteKeys(invites: InviteTable, dead: set<nat>, remap: seq<Gee>)
      ensures Redirected(WithoutEvents(invites, dead), remap).Keys <= invites.Keys
    {
    }

    lemma RankedPositive(invites: InviteTable, keep: seq<nat>)
      ensures Ranked(invites, keep).Keys == invites.Keys
    {
    }

    method PrepareEvents(ids: seq<nat>, now: int, delay: int) returns (remapData: seq<Gee>, remapId: nat)
      requires forall k :: k in ids ==> k in eventTable
      ensures remapData == Plan(ids, Dead(eventTable, now, delay))
      ensures remapId == |Keep(ids, Dead(eventTable, now, delay))| + 1 && |remapData| == |ids|
    {
      ghost var dead := Dead(eventTable, now, delay);
      remapData, remapId := [], 1;
      for i := 0 to |ids|
        invariant remapData == Plan(ids[..i], dead) && |remapData| == i
        invariant remapId == |Keep(ids[..i], dead)| + 1
      {
        assert ids[..i + 1][..i] == ids[..i];
        assert ids[i] in ids;
        var removeEvent := ReadyForRemove(eventTable[ids[i]].eventTime, now, delay);
        if removeEvent {
          remapData := remapData + [Gee(ids[i], DELETED_ID)];
        } else {
          remapData := remapData + [Gee(ids[i], remapId)];
          remapId := remapId + 1;
        }
      }
      assert ids[..|ids|] == ids;
    }

    method RemapInviteIds() returns (ghost order: seq<nat>)
      requires 0 !in inviteTable
      modifies this`eventTable, this`inviteTable
      ensures eventTable == old(eventTable)
      ensures Lists(order, old(inviteTable)) && inviteTable == Compact(old(inviteTable), order)
    {
      var ids := Ordered(inviteTable.Keys);
      order := ids;
      Listed(ids, inviteTable);
      SequentialIsCompact(inviteTable, ids);
      hide *;
      if inviteTable != map[] {
        var remapData := PrepareInvites(ids);
        if remapData != [] {
          DBRemap(RemapInvites, remapData);
        } else {
          NoMoves(inviteTable);
        }
      } else {
        NoIds(ids, inviteTable);
      }
    }

    method PrepareInvites(ids: seq<nat>) returns (remapData: seq<Gee>)
      ensures remapData == Renumbering(ids)
    {
      remapData := [];
      var remapId := 1;
      for i := 0 to |ids|
        invariant remapData == Renumbering(ids[..i]) && remapId == i + 1
      {
        assert ids[..i + 1][..i] == ids[..i];
        var inviteId := ids[i];
        if inviteId != remapId {
          remapData := remapData + [Gee(inviteId, remapId)];
        }
        remapId := remapId + 1;
      }
      assert ids[..|ids|] == ids;
    }

    lemma NoMoves<V>(table: map<nat, V>)
      ensures MoveAll(table, []) == table
    {
    }

    lemma NoIds<V>(ids: seq<nat>, table: map<nat, V>)
      requires Lists(ids, table) && table == map[]
      ensures Compact(table, ids) == table
    {
      assert forall i :: 0 <= i < |ids| ==> ids[i] in ids;
    }

    // -------------------------------------------------------------- loading

    method LoadFromDB(now: int, delay: int)
        returns (ghost events: EventTable, ghost invites: InviteTable, ghost keep: seq<nat>, ghost order: seq<nat>)
      requires 0 !in eventTable && 0 !in inviteTable && |eventTable| < DELETED_ID
      modifies this
      ensures Remapped(old(eventTable), old(inviteTable), events, invites, keep, order, now, delay)
      ensures S() == Loaded(events, invites, |keep|, |order|) && InSync(S())
      ensures LoadedAs(S(), events, invites)
    {
      hide *;
      eventStore, inviteStore := map[], map[];
      keep, order := DBRemoveExpiredEventsAndRemapData(now, delay);
      events, invites := eventTable, inviteTable;
      RemappedDense(old(eventTable), old(inviteTable), events, invites, keep, order, now, delay);
      LoadedParts(events, invites, |keep|, |order|);
      LoadedExactly(events, invites, |keep|, |order|);

      var maxEventId := 0;
      var someEventExist := false;
      if eventTable != map[] {
        maxEventId := LoadEvents(|keep|);
        someEventExist := true;
      }
      eventGuids := maxEventId + 1;

      var maxInviteId := 0;
      if inviteTable != map[] {
        if someEventExist {
          maxInviteId := LoadInvites(maxEventId, |order|);
        } else {
          inviteTable := map[];
        }
      }
      inviteGuids := maxInviteId + 1;
    }

    /** After the renumbering the ids of each table are 1 to n, unless there was no event to begin with. */
    lemma RemappedDense(events: EventTable, invites: InviteTable, events': EventTable, invites': InviteTable,
                        keep: seq<nat>, order: seq<nat>, now: int, delay: int)
      requires Remapped(events, invites, events', invites', keep, order, now, delay)
      ensures events' != map[] ==> Dense(events', |keep|) && Dense(invites', |order|)
    {
    }

    lemma LoadedParts(events: EventTable, invites: InviteTable, n: nat, m: nat)
      requires events != map[] ==> Dense(events, n) && Dense(invites, m)
      ensures InSync(Loaded(events, invites, n, m))
      ensures Loaded(events, invites, n, m) ==
              if events == map[] then Calendar(map[], map[], map[], map[], 1, 1)
              else Calendar(LoadedEvents(events, invites), LoadedInvites(events, invites), events, invites,
                            n + 1, m + 1)
      ensures LoadedInvites(events, map[]) == map[]
      ensures events != map[] && invites == map[] ==> m == 0
    {
      if events != map[] {
        LoadedInSync(events, invites, n, m);
        assert m >= 1 ==> 1 in invites;
      }
    }

    lemma LastOfDense<R>(table: map<nat, R>, ids: seq<nat>, n: nat)
      requires Ascending(ids) && (forall k :: k in ids <==> k in table.Keys) && Dense(table, n)
      ensures 0 !in ids && n == if ids == [] then 0 else ids[|ids| - 1]
    {
      if n > 0 {
        assert n in table;
        assert n in ids;
      }
      if ids != [] {
        assert ids[|ids| - 1] in ids;
      }
    }

    ghost function Only<V>(store: map<nat, V>, keys: set<nat>): map<nat, V> {
      map k | k in store && k in keys :: store[k]
    }

    lemma OnlyNext<V>(store: map<nat, V>, done: set<nat>, k: nat)
      requires k in store && k !in done
      ensures Only(store, done + {k}) == Only(store, done)[k := store[k]] && k !in Only(store, done)
    {
    }

    lemma OnlyAll<V>(store: map<nat, V>)
      ensures Only(store, {}) == map[] && Only(store, store.Keys) == store
    {
    }

    lemma EventsNext(some: EventTable, k: nat, row: EventRow)
      requires k !in some
      ensures LoadedEvents(map[], map[]) == map[]
      ensures LoadedEvents(some[k := row], map[]) == LoadedEvents(some, map[])[k := Event(row, {}, true, false)]
    {
      assert InviteesOf(map[], k) == {};
    }

    method LoadEvents(ghost n: nat) returns (maxEventId: int)
      requires eventStore == map[] && Dense(eventTable, n)
      modifies this`eventStore
      ensures eventStore == LoadedEvents(eventTable, map[]) && maxEventId == n
    {
      hide *;
      var ids := Ordered(eventTable.Keys);
      LastOfDense(eventTable, ids, n);
      OnlyAll(eventTable);
      NoEvents();
      maxEventId := 0;
      ghost var done: set<nat> := {};
      for i := 0 to |ids|
        invariant forall k :: k in done <==> k in ids[..i]
        invariant eventStore == LoadedEvents(Only(eventTable, done), map[])
        invariant maxEventId == if i == 0 then 0 else ids[i - 1]
      {
        var eventId := ids[i];
        NextId(eventTable, ids, i, done);
        OnlyNext(eventTable, done, eventId);
        EventsNext(Only(eventTable, done), eventId, eventTable[eventId]);
        eventStore := eventStore[eventId := Event(eventTable[eventId], {}, false, false)];
        maxEventId := if maxEventId < eventId then eventId else maxEventId;
        eventStore := eventStore[eventId := eventStore[eventId].(saved := true)];
        done := done + {eventId};
      }
      assert done == eventTable.Keys by { assert ids[..|ids|] == ids; }
    }

    lemma NoEvents()
      ensures LoadedEvents(map[], map[]) == map[]
    {
    }

    /** The next id is new and larger than the one before. */
    lemma NextId<R>(table: map<nat, R>, ids: seq<nat>, i: nat, done: set<nat>)
      requires Ascending(ids) && 0 !in ids && (forall k :: k in ids <==> k in table.Keys) && i < |ids|
      requires forall k :: k in done <==> k in ids[..i]
      ensures ids[i] in table && ids[i] !in done && ids[i] > if i == 0 then 0 else ids[i - 1]
      ensures forall k :: k in done + {ids[i]} <==> k in ids[..i + 1]
    {
      assert ids[i] in ids;
      assert ids[..i + 1] == ids[..i] + [ids[i]];
    }

    lemma InvitesNext(events: EventTable, some: InviteTable, i: nat, row: InviteRow)
      requires i !in some
      ensures var k, before, after := row.eventId, LoadedEvents(events, some), LoadedEvents(events, some[i := row]);
              && (k in events <==> Live(before, k))
              && (k !in events ==> after == before)
              && (k in events ==> after == before[k := before[k].(invitees := before[k].invitees + {i})])
      ensures LoadedInvites(events, some[i := row]) == LoadedInvites(events, some)[i := LoadedInvite(events, i, row)]
    {
      forall j: nat
        ensures j != row.eventId ==> InviteesOf(some[i := row], j) == InviteesOf(some, j)
        ensures j == row.eventId ==> InviteesOf(some[i := row], j) == InviteesOf(some, j) + {i}
      {
      }
      hide InviteesOf;
    }

    method LoadInvite(id: nat, ghost some: InviteTable)
      requires id in inviteTable && id !in some
      requires eventStore == LoadedEvents(eventTable, some) && inviteStore == LoadedInvites(eventTable, some)
      modifies this`eventStore, this`inviteStore
      ensures eventStore == LoadedEvents(eventTable, some[id := inviteTable[id]])
      ensures inviteStore == LoadedInvites(eventTable, some[id := inviteTable[id]])
    {
      var row := inviteTable[id];
      InvitesNext(eventTable, some, id, row);
      hide LoadedEvents, LoadedInvites;
      var eventId := row.eventId;
      var found := Live(eventStore, eventId);
      var invite := if found then Invite(id, row, false, false) else Invite(0, row.(eventId := 0), false, false);
      invite := invite.(saved := true);
      if !found {
        invite := invite.(deleted := true);
      } else {
        eventStore := eventStore[eventId := eventStore[eventId].(invitees := eventStore[eventId].invitees + {id})];
      }
      inviteStore := inviteStore[id := invite];
    }

    /** The rows come by ascending id, so the larger id is always the new one and never `maxEventId`. */
    method LoadInvites(maxEventId: int, ghost m: nat) returns (maxInviteId: int)
      requires inviteStore == map[] && eventStore == LoadedEvents(eventTable, map[]) && Dense(inviteTable, m)
      modifies this`eventStore, this`inviteStore
      ensures eventStore == LoadedEvents(eventTable, inviteTable)
      ensures inviteStore == LoadedInvites(eventTable, inviteTable)
      ensures maxInviteId == m
    {
      hide *;
      var ids := Ordered(inviteTable.Keys);
      LastOfDense(inviteTable, ids, m);
      OnlyAll(inviteTable);
      NoInvites(eventTable);
      maxInviteId := 0;
      ghost var done: set<nat> := {};
      for i := 0 to |ids|
        invariant forall k :: k in done <==> k in ids[..i]
        invariant eventStore == LoadedEvents(eventTable, Only(inviteTable, done))
        invariant inviteStore == LoadedInvites(eventTable, Only(inviteTable, done))
        invariant maxInviteId == if i == 0 then 0 else ids[i - 1]
      {
        var id := ids[i];
        NextId(inviteTable, ids, i, done);
        OnlyNext(inviteTable, done, id);
        LoadInvite(id, Only(inviteTable, done));
        maxInviteId := if maxInviteId < id then id else maxEventId;
        done := done + {id};
      }
      assert done == inviteTable.Keys by { assert ids[..|ids|] == ids; }
    }

    lemma NoInvites(events: EventTable)
      ensures LoadedInvites(events, map[]) == map[]
    {
    }

    // -------------------------------------------------------------- flags

    method RemoveInviteById(i: nat)
      modifies this`inviteStore
      ensures inviteStore == FlagInvites(old(inviteStore), {i})
    {
      if !LiveInvite(inviteStore, i) {
        assert inviteStore == FlagInvites(inviteStore, {i});
        return;
      }
      inviteStore := inviteStore[i := inviteStore[i].(deleted := true)];
    }

    /** What the destructor of an event does to its invites. */
    method RemoveAllInvite(invitees: set<nat>)
      modifies this`inviteStore
      ensures inviteStore == FlagInvites(old(inviteStore), invitees)
    {
      hide FlagInvites;
      var todo := invitees;
      FlagMore(inviteStore, {}, {});
      assert invitees - todo == {};
      while todo != {}
        invariant todo <= invitees
        invariant inviteStore == FlagInvites(old(inviteStore), invitees - todo)
        decreases todo
      {
        var i := Least(todo);
        FlagMore(old(inviteStore), invitees - todo, {i});
        assert invitees - todo + {i} == invitees - (todo - {i});
        RemoveInviteById(i);
        todo := todo - {i};
      }
      assert invitees - todo == invitees;
    }

    // -------------------------------------------------------------- saving

    method SaveEventToDB(k: nat)
      requires k in eventStore && k != 0
      modifies this`eventTable
      ensures eventTable == old(eventTable)[k := eventStore[k].row]
    {
      DeleteEventFromDB(k);
      eventTable := eventTable[k := eventStore[k].row];
    }

    method DeleteEventFromDB(k: nat)
      modifies this`eventTable
      ensures eventTable == if k == 0 then old(eventTable) else old(eventTable) - {k}
    {
      if k == 0 {
        return;
      }
      eventTable := eventTable - {k};
    }

    method SaveInviteToDB(i: nat)
      requires i in inviteStore && (inviteStore[i].id == 0 || inviteStore[i].id == i)
      modifies this`inviteTable
      ensures inviteTable ==
              if inviteStore[i].id == 0 then old(inviteTable) else old(inviteTable)[i := inviteStore[i].row]
    {
      var invite := inviteStore[i];
      if invite.id == 0 {
        return;
      }
      DeleteInviteFromDB(invite.id);
      inviteTable := inviteTable[invite.id := invite.row];
    }

    method DeleteInviteFromDB(i: nat)
      modifies this`inviteTable
      ensures inviteTable == if i == 0 then old(inviteTable) else old(inviteTable) - {i}
    {
      if i == 0 {
        return;
      }
      inviteTable := inviteTable - {i};
    }

    /** One more event has been saved. */
    lemma SavedEventsNext(done: map<nat, Event>, k: nat, e: Event)
      requires k !in done
      ensures SavedEvents(done[k := e]) ==
              if Erased(e) then SavedEvents(done) else SavedEvents(done)[k := e.(saved := true)]
    {
    }

    lemma OtherEventRows(done: map<nat, Event>, k: nat, e: Event, table: map<nat, EventRow>)
      ensures var before, after := SavedEventTable(done, table), SavedEventTable(done[k := e], table);
              && (forall j :: j != k ==> (j in after <==> j in before))
              && (forall j :: j != k && j in after ==> after[j] == before[j])
    {
    }

    lemma OwnEventRow(done: map<nat, Event>, k: nat, e: Event, table: map<nat, EventRow>)
      requires k !in done
      ensures var before, after := SavedEventTable(done, table), SavedEventTable(done[k := e], table);
              && (k in after <==> !e.saved || (!e.deleted && k in before))
              && (k in after ==> after[k] == if e.saved then before[k] else e.row)
    {
    }

    lemma SavedEventRowNext(done: map<nat, Event>, k: nat, e: Event, table: map<nat, EventRow>)
      requires k !in done
      ensures SavedEventTable(done[k := e], table) ==
              if !e.saved then SavedEventTable(done, table)[k := e.row]
              else if e.deleted then SavedEventTable(done, table) - {k}
              else SavedEventTable(done, table)
    {
      hide SavedEventTable;
      OtherEventRows(done, k, e, table);
      OwnEventRow(done, k, e, table);
    }

    lemma AbandonedNext(done: map<nat, Event>, k: nat, e: Event)
      requires k !in done
      ensures Abandoned(done[k := e]) == Abandoned(done) + if Erased(e) then e.invitees else {}
    {
      forall i ensures i in Abandoned(done[k := e]) <==> i in Abandoned(done) || (Erased(e) && i in e.invitees) {
        if i in Abandoned(done) {
          var j :| j in done && Erased(done[j]) && i in done[j].invitees;
          assert done[k := e][j] == done[j];
        }
        if Erased(e) && i in e.invitees {
          assert k in done[k := e] && Erased(done[k := e][k]) && i in done[k := e][k].invitees;
        }
      }
    }

    /** One turn of the walk over the event store. */
    method SaveEvent(k: nat)
      requires k in eventStore && k != 0
      modifies this`eventStore, this`inviteStore, this`eventTable
      ensures var e := old(eventStore[k]);
              && eventStore == (if Erased(e) then old(eventStore) - {k} else old(eventStore)[k := e.(saved := true)])
              && eventTable == (if !e.saved then old(eventTable)[k := e.row]
                                else if e.deleted then old(eventTable) - {k}
                                else old(eventTable))
              && inviteStore == FlagInvites(old(inviteStore), if Erased(e) then e.invitees else {})
    {
      FlagMore(inviteStore, {}, {});
      hide FlagInvites;
      var e := eventStore[k];
      if !e.saved {
        SaveEventToDB(k);
        eventStore := eventStore[k := e.(saved := true)];
      } else if e.deleted {
        DeleteEventFromDB(k);
        RemoveAllInvite(e.invitees);
        eventStore := eventStore - {k};
      } else {
        assert eventStore == eventStore[k := e.(saved := true)];
      }
    }

    lemma SaveStart(c: Calendar)
      ensures SavedEvents(map[]) == map[] && SavedEventTable(map[], c.eventTable) == c.eventTable
      ensures FlagInvites(c.invites, Abandoned(map[])) == c.invites
    {
      assert Abandoned(map[]) == {};
    }

    lemma SaveInvitesStart(table: InviteTable)
      ensures SavedInvites(map[]) == map[] && SavedInviteTable(map[], table) == table
    {
    }

    method SaveAllEvents()
      requires 0 !in eventStore
      modifies this`eventStore, this`inviteStore, this`eventTable
      ensures S() == SaveEvents(old(S()))
    {
      hide *;
      ghost var c := S();
      SaveStart(c);
      var todo := eventStore.Keys;
      ghost var done: map<nat, Event> := map[];
      while todo != {}
        invariant todo <= c.events.Keys && done.Keys == c.events.Keys - todo
        invariant forall k :: k in done ==> done[k] == c.events[k]
        invariant forall k :: k in todo ==> k in eventStore && eventStore[k] == c.events[k]
        invariant forall k :: k in eventStore && k !in todo ==>
                    k in SavedEvents(done) && eventStore[k] == SavedEvents(done)[k]
        invariant forall k :: k in SavedEvents(done) ==> k in eventStore && k !in todo
        invariant eventTable == SavedEventTable(done, c.eventTable)
        invariant inviteStore == FlagInvites(c.invites, Abandoned(done))
        decreases todo
      {
        var k := Least(todo);
        SavedEventsNext(done, k, c.events[k]);
        SavedEventRowNext(done, k, c.events[k], c.eventTable);
        AbandonedNext(done, k, c.events[k]);
        FlagMore(c.invites, Abandoned(done), if Erased(c.events[k]) then c.events[k].invitees else {});
        SaveEvent(k);
        todo := todo - {k};
        done := done[k := c.events[k]];
      }
      assert done == c.events;
      assert eventStore == SavedEvents(c.events);
      SaveEventsParts(c);
    }

    lemma SaveEventsParts(c: Calendar)
      ensures SaveEvents(c) == c.(events := SavedEvents(c.events),
                                  eventTable := SavedEventTable(c.events, c.eventTable),
                                  invites := FlagInvites(c.invites, Abandoned(c.events)))
      ensures SaveInvites(c) == c.(invites := SavedInvites(c.invites),
                                   inviteTable := SavedInviteTable(c.invites, c.inviteTable))
      ensures Save(c) == SaveInvites(SaveEvents(c))
    {
    }

    lemma SavedInvitesNext(done: map<nat, Invite>, i: nat, v: Invite)
      requires i !in done
      ensures SavedInvites(done[i := v]) ==
              if v.saved && v.deleted then SavedInvites(done) else SavedInvites(done)[i := v.(saved := true)]
    {
    }

    lemma OtherInviteRows(done: map<nat, Invite>, i: nat, v: Invite, table: InviteTable)
      ensures var before, after := SavedInviteTable(done, table), SavedInviteTable(done[i := v], table);
              && (forall j :: j != i ==> (j in after <==> j in before))
              && (forall j :: j != i && j in after ==> after[j] == before[j])
    {
    }

    lemma OwnInviteRow(done: map<nat, Invite>, i: nat, v: Invite, table: InviteTable)
      requires i !in done
      ensures var before, after := SavedInviteTable(done, table), SavedInviteTable(done[i := v], table);
              && (i in after <==> if v.saved then !v.deleted && i in before else v.id != 0 || i in before)
              && (i in after ==> after[i] == if v.saved || v.id == 0 then before[i] else v.row)
    {
    }

    lemma SavedInviteRowNext(done: map<nat, Invite>, i: nat, v: Invite, table: InviteTable)
      requires i !in done
      ensures SavedInviteTable(done[i := v], table) ==
              if !v.saved then
                (if v.id == 0 then SavedInviteTable(done, table) else SavedInviteTable(done, table)[i := v.row])
              else if v.deleted then SavedInviteTable(done, table) - {i}
              else SavedInviteTable(done, table)
    {
      hide SavedInviteTable;
      OtherInviteRows(done, i, v, table);
      OwnInviteRow(done, i, v, table);
    }

    method SaveInvite(i: nat)
      requires i in inviteStore && i != 0 && (inviteStore[i].id == 0 || inviteStore[i].id == i)
      modifies this`inviteStore, this`inviteTable
      ensures var v := old(inviteStore[i]);
              && inviteStore ==
                 (if v.saved && v.deleted then old(inviteStore) - {i} else old(inviteStore)[i := v.(saved := true)])
              && inviteTable ==
                 (if !v.saved then (if v.id == 0 then old(inviteTable) else old(inviteTable)[i := v.row])
                  else if v.deleted then old(inviteTable) - {i}
                  else old(inviteTable))
    {
      var v := inviteStore[i];
      if !v.saved {
        SaveInviteToDB(i);
        inviteStore := inviteStore[i := v.(saved := true)];
      } else if v.deleted {
        DeleteInviteFromDB(i);
        inviteStore := inviteStore - {i};
      } else {
        assert inviteStore == inviteStore[i := v.(saved := true)];
      }
    }

    method SaveAllInvites()
      requires 0 !in inviteStore
      requires forall i :: i in inviteStore ==> inviteStore[i].id == 0 || inviteStore[i].id == i
      modifies this`inviteStore, this`inviteTable
      ensures S() == SaveInvites(old(S()))
    {
      hide *;
      ghost var c := S();
      SaveInvitesStart(inviteTable);
      var todo := inviteStore.Keys;
      ghost var done: map<nat, Invite> := map[];
      while todo != {}
        invariant todo <= c.invites.Keys && done.Keys == c.invites.Keys - todo
        invariant forall i :: i in done ==> done[i] == c.invites[i]
        invariant forall i :: i in todo ==> i in inviteStore && inviteStore[i] == c.invites[i]
        invariant forall i :: i in inviteStore && i !in todo ==>
                    i in SavedInvites(done) && inviteStore[i] == SavedInvites(done)[i]
        invariant forall i :: i in SavedInvites(done) ==> i in inviteStore && i !in todo
        invariant inviteTable == SavedInviteTable(done, c.inviteTable)
        decreases todo
      {
        var i := Least(todo);
        SavedInvitesNext(done, i, c.invites[i]);
        SavedInviteRowNext(done, i, c.invites[i], c.inviteTable);
        SaveInvite(i);
        todo := todo - {i};
        done := done[i := c.invites[i]];
      }
      assert done == c.invites;
      assert inviteStore == SavedInvites(c.invites);
      SaveEventsParts(c);
    }

    /** The ids that the two walks rely on. */
    ghost predicate GoodIds(c: Calendar) {
      && 0 !in c.events && 0 !in c.invites
      && (forall i :: i in c.invites ==> c.invites[i].id == 0 || c.invites[i].id == i)
    }

    lemma SyncIds(c: Calendar, now: int, delay: int)
      requires InSync(c)
      ensures GoodIds(c) && GoodIds(Mark(c, now, delay))
    {
      forall i | i in c.invites ensures c.invites[i].id == 0 || c.invites[i].id == i {
        assert InviteInSync(c, i);
      }
    }

    lemma SaveEventsIds(c: Calendar)
      requires GoodIds(c)
      ensures GoodIds(SaveEvents(c))
    {
    }

    method SaveToDB()
      requires GoodIds(S())
      modifies this
      ensures S() == Save(old(S()))
    {
      hide *;
      ghost var c := S();
      UnfoldIds(c);
      SaveEventsIds(c);
      SaveEventsParts(c);
      SaveAllEvents();
      UnfoldIds(S());
      SaveAllInvites();
    }

    lemma UnfoldIds(c: Calendar)
      requires GoodIds(c)
      ensures 0 !in c.events && 0 !in c.invites
      ensures forall i :: i in c.invites ==> c.invites[i].id == 0 || c.invites[i].id == i
    {
    }

    // -------------------------------------------------------------- the tick

    method MarkAllEvents(now: int, delay: int)
      modifies this`eventStore
      ensures eventStore == MarkEvents(old(eventStore), now, delay)
    {
      var todo := eventStore.Keys;
      while todo != {}
        invariant todo <= old(eventStore).Keys
        invariant eventStore == map k | k in old(eventStore) ::
                    if k in todo then old(eventStore)[k] else MarkedEvent(old(eventStore)[k], now, delay)
        decreases todo
      {
        var k := Least(todo);
        todo := todo - {k};
        var event := eventStore[k];
        if event.deleted {
          continue;
        }
        if ReadyForRemove(event.row.eventTime, now, delay) || event.invitees == {} {
          eventStore := eventStore[k := event.(deleted := true)];
        }
      }
    }

    method MarkAllInvites()
      modifies this`inviteStore
      ensures inviteStore == MarkInvites(eventStore, old(inviteStore))
    {
      var todo := inviteStore.Keys;
      while todo != {}
        invariant todo <= old(inviteStore).Keys
        invariant inviteStore == map i | i in old(inviteStore) ::
                    if i in todo then old(inviteStore)[i] else MarkedInvite(eventStore, old(inviteStore)[i])
        decreases todo
      {
        var i := Least(todo);
        todo := todo - {i};
        var invite := inviteStore[i];
        if invite.deleted {
          continue;
        }
        if invite.row.eventId == 0 || !Live(eventStore, invite.row.eventId) {
          inviteStore := inviteStore[i := invite.(deleted := true)];
        }
      }
    }

    method Update(now: int, delay: int)
      requires InSync(S())
      modifies this
      ensures InSync(S()) && S() == Tick(old(S()), now, delay)
      ensures TickedAs(old(S()), S(), now, delay)
    {
      hide *;
      ghost var c := S();
      SyncIds(c, now, delay);
      TickExactly(c, now, delay);
      TickInSync(c, now, delay);
      TickParts(c, now, delay);
      MarkAllEvents(now, delay);
      MarkAllInvites();
      SaveToDB();
    }

    lemma TickParts(c: Calendar, now: int, delay: int)
      ensures Tick(c, now, delay) == Save(Mark(c, now, delay))
      ensures var events := MarkEvents(c.events, now, delay);
              Mark(c, now, delay) == c.(events := events, invites := MarkInvites(events, c.invites))
    {
    }

    // -------------------------------------------------------------- requests

    method AddEvent(row: EventRow, now: int) returns (ok: bool)
      requires InSync(S())
      modifies this`eventStore, this`eventGuids
      ensures InSync(S()) && S() == Calendars.AddEvent(old(S()), row, now)
      ensures ok <==> row.title != "" && row.eventTime >= now
      ensures if ok then S() == old(S()).(
                events := old(eventStore)[old(eventGuids) := Event(row, {}, false, false)],
                nextEvent := old(eventGuids) + 1)
              else S() == old(S())
    {
      AddEventInSync(S(), row, now);
      hide InSync;
      if row.title == "" {
        return false;
      }
      if row.eventTime < now {
        return false;
      }
      var eventGuid := eventGuids;
      eventGuids := eventGuids + 1;
      eventStore := eventStore[eventGuid := Event(row, {}, false, false)];
      return true;
    }

    method AddInvite(k: nat, row: InviteRow)
      requires InSync(S()) && k in eventStore
      modifies this`eventStore, this`inviteStore, this`inviteGuids
      ensures InSync(S()) && S() == Calendars.AddInvite(old(S()), k, row)
      ensures var e, i := old(eventStore[k]), old(inviteGuids);
              var announced := e.row.flags & 0x40 != 0;
              && inviteGuids == i + 1
              && inviteStore == old(inviteStore)[i := Invite(i, row.(eventId := k), false, announced)]
              && eventStore == (if announced then old(eventStore)
                                else old(eventStore)[k := e.(invitees := e.invitees + {i})])
    {
      ghost var c := S();
      AddInviteInSync(c, k, row);
      hide InSync;
      var event := eventStore[k];
      var inviteGuid := inviteGuids;
      inviteGuids := inviteGuids + 1;
      inviteStore := inviteStore[inviteGuid := Invite(inviteGuid, row.(eventId := k), false, false)];
      if event.row.IsGuildAnnouncement() {
        inviteStore := inviteStore[inviteGuid := inviteStore[inviteGuid].(deleted := true)];
        assert inviteStore == c.invites[inviteGuid := Invite(inviteGuid, row.(eventId := k), false, true)];
        return;
      }
      assert inviteGuid !in event.invitees;                 // so adding it to the event cannot fail
      eventStore := eventStore[k := event.(invitees := event.invitees + {inviteGuid})];
      inviteStore := inviteStore[inviteGuid := inviteStore[inviteGuid].(saved := false)];
      assert inviteStore == c.invites[inviteGuid := Invite(inviteGuid, row.(eventId := k), false, false)];
    }

    method HandleUpdateEvent(k: nat, row: EventRow, permitted: bool)
      requires InSync(S())
      modifies this`eventStore
      ensures InSync(S()) && S() == UpdateEvent(old(S()), k, row, permitted)
      ensures if k in old(eventStore) && !old(eventStore[k]).deleted && permitted then
                var e := old(eventStore[k]);
                eventStore == old(eventStore)[k := e.(
                  row := EventRow(e.row.creator, e.row.guildId, row.kind, row.flags, row.dungeonId, row.eventTime,
                                  row.title, row.description),
                  saved := false)]
              else S() == old(S())
    {
      ApplyInSync(S(), DoUpdateEvent(k, row, permitted));
      hide InSync;
      if !Live(eventStore, k) || !permitted {
        return;
      }
      var event := eventStore[k];
      event := event.(row := event.row.(kind := row.kind, flags := row.flags, eventTime := row.eventTime,
                                        dungeonId := row.dungeonId, title := row.title,
                                        description := row.description));
      eventStore := eventStore[k := event.(saved := false)];
    }

    method RemoveEvent(k: nat, remover: nat)
      requires InSync(S())
      modifies this`eventStore
      ensures InSync(S()) && S() == Calendars.RemoveEvent(old(S()), k, remover)
      ensures if k in old(eventStore) && !old(eventStore[k]).deleted && old(eventStore[k]).row.creator == remover
              then eventStore == old(eventStore)[k := old(eventStore[k]).(deleted := true)]
              else S() == old(S())
    {
      ApplyInSync(S(), DoRemoveEvent(k, remover));
      hide InSync;
      if !Live(eventStore, k) {
        return;
      }
      if remover != eventStore[k].row.creator {
        return;
      }
      eventStore := eventStore[k := eventStore[k].(deleted := true)];
    }

    /** An invite that is neither removed nor to a removed event. */
    ghost predicate Answers(c: Calendar, k: nat, i: nat) {
      && k in c.events && !c.events[k].deleted && i in c.events[k].invitees
      && i in c.invites && !c.invites[i].deleted
    }

    method HandleInviteChange(k: nat, i: nat, change: Change, permitted: bool)
      requires InSync(S())
      modifies this`inviteStore
      ensures InSync(S()) && S() == ChangeInvite(old(S()), k, i, change, permitted)
      ensures if Answers(old(S()), k, i) && permitted then
                var v := old(inviteStore[i]);
                inviteStore == old(inviteStore)[i := v.(
                  saved := false,
                  row := match change
                         case NewStatus(status, time) => v.row.(status := status, lastUpdateTime := time)
                         case NewRank(rank) => v.row.(rank := rank))]
              else S() == old(S())
    {
      hide *;
      ApplyInSync(S(), DoChangeInvite(k, i, change, permitted));
      ChangeMeans(S(), k, i, change, permitted);
      if !Live(eventStore, k) {
        return;
      }
      if i !in eventStore[k].invitees || !LiveInvite(inviteStore, i) {
        return;
      }
      if !permitted {
        return;
      }
      var invite := inviteStore[i];
      match change {
        case NewStatus(status, time) =>
          invite := invite.(row := invite.row.(status := status, lastUpdateTime := time));
        case NewRank(rank) =>
          invite := invite.(row := invite.row.(rank := rank));
      }
      inviteStore := inviteStore[i := invite.(saved := false)];
    }

    lemma ChangeMeans(c: Calendar, k: nat, i: nat, change: Change, permitted: bool)
      ensures Apply(c, DoChangeInvite(k, i, change, permitted)) == ChangeInvite(c, k, i, change, permitted)
      ensures ChangeInvite(c, k, i, change, permitted) ==
              if !Live(c.events, k) then c
              else if i !in c.events[k].invitees || !LiveInvite(c.invites, i) || !permitted then c
              else c.(invites := c.invites[i := c.invites[i].(row := Changed(c.invites[i].row, change),
                                                              saved := false)])
      ensures Live(c.events, k) ==> k in c.events
      ensures Answers(c, k, i) <==> Live(c.events, k) && i in c.events[k].invitees && LiveInvite(c.invites, i)
      ensures LiveInvite(c.invites, i) ==> i in c.invites
      ensures i in c.invites ==>
                Changed(c.invites[i].row, change) ==
                match change {
                  case NewStatus(status, time) => c.invites[i].row.(status := status, lastUpdateTime := time)
                  case NewRank(rank) => c.invites[i].row.(rank := rank)
                }
    {
    }

    method RemoveInvite(k: nat, i: nat, permitted: bool)
      requires InSync(S())
      modifies this`inviteStore
      ensures InSync(S()) && S() == Calendars.RemoveInvite(old(S()), k, i, permitted)
      ensures if Answers(old(S()), k, i) && permitted &&
                 old(eventStore[k]).row.creator != old(inviteStore[i]).row.invitee
              then inviteStore == old(inviteStore)[i := old(inviteStore[i]).(deleted := true)]
              else S() == old(S())
    {
      ApplyInSync(S(), DoRemoveInvite(k, i, permitted));
      hide InSync, FlagInvites;
      if !Live(eventStore, k) {
        return;
      }
      if i !in eventStore[k].invitees || !LiveInvite(inviteStore, i) || !permitted {
        return;
      }
      if eventStore[k].row.creator == inviteStore[i].row.invitee {
        return;
      }
      RemoveInviteById(i);
      OneFlagged(old(inviteStore), i);
    }

    lemma OneFlagged(invites: map<nat, Invite>, i: nat)
      requires i in invites
      ensures FlagInvites(invites, {i}) == invites[i := invites[i].(deleted := true)]
    {
    }

    method RemoveInviteByGuid(k: nat, player: nat)
      requires k in eventStore
      modifies this`inviteStore
      ensures inviteStore == FlagInvites(old(inviteStore), OwnInvites(old(S()), k, player))
    {
      ghost var c := S();
      ghost var own := OwnInvites(c, k, player);
      FlagMore(inviteStore, {}, {});
      var todo := eventStore[k].invitees;
      while todo != {}
        invariant todo <= c.events[k].invitees
        invariant inviteStore == FlagInvites(c.invites, own - todo)
        decreases todo
      {
        var i := Least(todo);
        ghost var before := own - todo;
        todo := todo - {i};
        if LiveInvite(inviteStore, i) && inviteStore[i].row.invitee == player {
          RemoveInviteById(i);
          FlagMore(c.invites, before, {i});
          assert own - todo == before + {i};
        } else {
          FlaggedAlready(c.invites, before, own - todo, i);
        }
      }
      assert own - todo == own;
    }

    lemma FlaggedAlready(invites: map<nat, Invite>, a: set<nat>, b: set<nat>, i: nat)
      requires a <= b <= a + {i} && (i in b && i in invites ==> FlagInvites(invites, a)[i].deleted)
      ensures FlagInvites(invites, a) == FlagInvites(invites, b)
    {
    }

    /** One event of a player who leaves the realm, or the guild. */
    method RemovePlayerEvent(k: nat, player: nat)
      requires InSync(S()) && k in eventStore && !eventStore[k].deleted && eventStore[k].row.creator == player
      modifies this`eventStore, this`inviteStore
      ensures InSync(S()) && S() == RemoveOwn(old(S()), k, player)
      ensures eventStore == old(eventStore)[k := old(eventStore[k]).(deleted := true)]
      ensures inviteStore == map i | i in old(inviteStore) ::
                var v := old(inviteStore[i]);
                if i in old(eventStore[k]).invitees && v.row.invitee == player then v.(deleted := true) else v
    {
      hide *;
      ApplyInSync(S(), DoRemoveOwn(k, player));
      RemoveOwnMeans(S(), k, player);
      OwnFlagged(S(), k, player);
      RemoveInviteByGuid(k, player);
      eventStore := eventStore[k := eventStore[k].(deleted := true)];
    }

    lemma OwnFlagged(c: Calendar, k: nat, player: nat)
      requires k in c.events
      ensures FlagInvites(c.invites, OwnInvites(c, k, player)) ==
              map i | i in c.invites ::
                var v := c.invites[i];
                if i in c.events[k].invitees && v.row.invitee == player then v.(deleted := true) else v
    {
    }

    lemma RemoveOwnMeans(c: Calendar, k: nat, player: nat)
      requires k in c.events && !c.events[k].deleted && c.events[k].row.creator == player
      ensures Apply(c, DoRemoveOwn(k, player)) == RemoveOwn(c, k, player)
      ensures RemoveOwn(c, k, player) ==
              c.(invites := FlagInvites(c.invites, OwnInvites(c, k, player)),
                 events := c.events[k := c.events[k].(deleted := true)])
    {
    }

    /** With `guildOnly` just the events of the guild go. */
    method RemovePlayerCalendar(player: nat, guildOnly: bool)
      requires InSync(S())
      modifies this`eventStore, this`inviteStore
      ensures InSync(S())
      ensures S() == RemoveAllOwn(old(S()), LeavingEvents(old(S()), player, guildOnly), player)
      ensures LeftBy(old(S()), S(), player, guildOnly)
    {
      hide *;
      ghost var c := S();
      ghost var done: set<nat> := {};
      RemoveNone(c, player);
      var todo := eventStore.Keys;
      while todo != {}
        invariant InSync(S()) && todo <= c.events.Keys
        invariant done !! todo && todo + done <= c.events.Keys
        invariant S() == RemoveAllOwn(c, done, player)
        invariant forall k :: k in c.events && k !in todo ==> (k in done <==> Leaving(c.events[k], player, guildOnly))
        decreases todo
      {
        var k := Least(todo);
        todo := todo - {k};
        StillThere(c, done, k, player);
        LeavingMeans(c.events[k], player, guildOnly);
        var event := eventStore[k];
        if event.row.creator == player && (!guildOnly || event.row.IsGuildEvent() || event.row.IsGuildAnnouncement()) {
          if !event.deleted {
            RemoveOneMore(c, done, k, player);
            RemovePlayerEvent(k, player);
            done := done + {k};
          }
        }
      }
      OnlyLeaving(c, done, player, guildOnly);
      LeftExactly(c, player, guildOnly);
    }

    /** His own live event, and with `guildOnly` one for his guild: an announcement or a guild event. */
    ghost predicate Goes(e: Event, player: nat, guildOnly: bool) {
      e.row.creator == player && !e.deleted && (guildOnly ==> e.row.flags & 0x40 != 0 || e.row.flags & 0x400 != 0)
    }

    ghost predicate LeftBy(c: Calendar, c': Calendar, player: nat, guildOnly: bool) {
      && c'.events == (map k | k in c.events ::
           if Goes(c.events[k], player, guildOnly) then c.events[k].(deleted := true) else c.events[k])
      && c'.invites.Keys == c.invites.Keys
      && (forall i :: i in c.invites ==>
            c'.invites[i] == if InviteGoes(c, i, player, guildOnly) then c.invites[i].(deleted := true)
                             else c.invites[i])
      && c' == c.(events := c'.events, invites := c'.invites)
    }

    ghost predicate InviteGoes(c: Calendar, i: nat, player: nat, guildOnly: bool)
      requires i in c.invites
    {
      && c.invites[i].row.invitee == player
      && exists k :: k in c.events && Goes(c.events[k], player, guildOnly) && i in c.events[k].invitees
    }

    lemma LeftExactly(c: Calendar, player: nat, guildOnly: bool)
      ensures LeftBy(c, RemoveAllOwn(c, LeavingEvents(c, player, guildOnly), player), player, guildOnly)
    {
      var ks := LeavingEvents(c, player, guildOnly);
      assert forall k :: k in c.events ==> (k in ks <==> Goes(c.events[k], player, guildOnly));
      hide LeavingEvents, Goes;
      forall i | i in c.invites ensures i in AllOwnInvites(c, ks, player) <==> InviteGoes(c, i, player, guildOnly) {
        if k :| k in c.events && Goes(c.events[k], player, guildOnly) && i in c.events[k].invitees {
          assert c.invites[i].row.invitee == player ==> i in OwnInvites(c, k, player);
        }
        if i in AllOwnInvites(c, ks, player) {
          var k :| k in ks && k in c.events && i in OwnInvites(c, k, player);
          assert Goes(c.events[k], player, guildOnly) && i in c.events[k].invitees;
        }
      }
    }

    lemma StillThere(c: Calendar, ks: set<nat>, k: nat, player: nat)
      requires k in c.events && k !in ks
      ensures k in RemoveAllOwn(c, ks, player).events && RemoveAllOwn(c, ks, player).events[k] == c.events[k]
    {
    }

    lemma LeavingMeans(e: Event, player: nat, guildOnly: bool)
      ensures Leaving(e, player, guildOnly) <==>
              && e.row.creator == player && (!guildOnly || e.row.IsGuildEvent() || e.row.IsGuildAnnouncement())
              && !e.deleted
      ensures Leaving(e, player, guildOnly) ==> Leaving(e, player, false)
    {
    }

    lemma OnlyLeaving(c: Calendar, ks: set<nat>, player: nat, guildOnly: bool)
      requires ks <= c.events.Keys
      requires forall k :: k in c.events ==> (k in ks <==> Leaving(c.events[k], player, guildOnly))
      ensures ks == LeavingEvents(c, player, guildOnly)
    {
    }
  }
}
