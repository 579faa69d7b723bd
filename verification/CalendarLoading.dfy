/** What starting the calendar makes of its two tables. */
module CalendarLoading {
  import opened CalendarRemap
  import opened Calendars
  import opened Ordering

  type EventTable = map<nat, EventRow>
  type InviteTable = map<nat, InviteRow>

  // ---------------------------------------------------------------- the plan

  /** The ids that stay. */
  function Keep(ids: seq<nat>, dead: set<nat>): seq<nat> {
    if ids == [] then []
    else
      var rest, last := ids[..|ids| - 1], ids[|ids| - 1];
      Keep(rest, dead) + if last in dead then [] else [last]
  }

  /** One entry for each event: its new id, or the mark of deletion. */
  function Plan(ids: seq<nat>, dead: set<nat>): seq<Gee> {
    if ids == [] then []
    else
      var rest, last := ids[..|ids| - 1], ids[|ids| - 1];
      Plan(rest, dead) + [Gee(last, if last in dead then DELETED_ID else |Keep(rest, dead)| + 1)]
  }

  predicate IsNotRemap(g: Gee) { g.from == g.to || g.to == DELETED_ID }

  function Remaps(plan: seq<Gee>): seq<Gee> {
    if plan == [] then []
    else
      var rest, last := plan[..|plan| - 1], plan[|plan| - 1];
      Remaps(rest) + if IsNotRemap(last) then [] else [last]
  }

  function DeadIn(plan: seq<Gee>): set<nat> { set g | g in plan && g.to == DELETED_ID :: g.from }

  lemma {:induction false} KeepBound(ids: seq<nat>, dead: set<nat>)
    ensures |Keep(ids, dead)| <= |ids|
    ensures forall k :: k in Keep(ids, dead) <==> k in ids && k !in dead
  {
    if ids != [] {
      var rest := ids[..|ids| - 1];
      KeepBound(rest, dead);
      assert ids == rest + [ids[|ids| - 1]];
    }
  }

  lemma {:induction false} KeepAscending(ids: seq<nat>, dead: set<nat>)
    requires Ascending(ids)
    ensures Ascending(Keep(ids, dead))
  {
    if ids != [] {
      var rest, last := ids[..|ids| - 1], ids[|ids| - 1];
      assert ids == rest + [last];
      assert forall k :: k in rest ==> k < last;
      KeepAscending(rest, dead);
      KeepBound(rest, dead);
      KeepNext(rest, dead, last);
      hide Keep, Ascending;
      AscendingNext(Keep(rest, dead), last);
      assert last in dead ==> Keep(ids, dead) == Keep(rest, dead);
    }
  }

  lemma AscendingNext(ids: seq<nat>, id: nat)
    requires Ascending(ids) && forall k :: k in ids ==> k < id
    ensures Ascending(ids + [id])
  {
    assert forall i :: 0 <= i < |ids| ==> ids[i] in ids;
  }

  lemma KeepNext(ids: seq<nat>, dead: set<nat>, id: nat)
    ensures Keep(ids + [id], dead) == Keep(ids, dead) + if id in dead then [] else [id]
  {
    assert (ids + [id])[..|ids + [id]| - 1] == ids;
  }

  lemma PlanNext(ids: seq<nat>, dead: set<nat>, id: nat)
    ensures Plan(ids + [id], dead) ==
            Plan(ids, dead) + [Gee(id, if id in dead then DELETED_ID else |Keep(ids, dead)| + 1)]
  {
    assert (ids + [id])[..|ids + [id]| - 1] == ids;
  }

  lemma RemapsNext(plan: seq<Gee>, g: Gee)
    ensures Remaps(plan + [g]) == Remaps(plan) + if IsNotRemap(g) then [] else [g]
  {
    assert (plan + [g])[..|plan + [g]| - 1] == plan;
  }

  /** Throwing out the entries that change nothing leaves the renumbering of the ids that stay. */
  lemma {:induction false} PlanRemaps(ids: seq<nat>, dead: set<nat>)
    requires |ids| < DELETED_ID
    ensures Remaps(Plan(ids, dead)) == Renumbering(Keep(ids, dead))
  {
    if ids != [] {
      hide Keep, Plan, Remaps, Renumbering;
      var rest, last := ids[..|ids| - 1], ids[|ids| - 1];
      assert ids == rest + [last];
      PlanRemaps(rest, dead);
      KeepBound(rest, dead);
      KeepNext(rest, dead, last);
      PlanNext(rest, dead, last);
      RemapsNext(Plan(rest, dead), Gee(last, if last in dead then DELETED_ID else |Keep(rest, dead)| + 1));
      RenumberingNext(Keep(rest, dead), last);
      if last in dead {
        assert Keep(ids, dead) == Keep(rest, dead);
      }
    }
  }

  lemma {:induction false} PlanDead(ids: seq<nat>, dead: set<nat>)
    requires |ids| < DELETED_ID
    ensures forall k :: k in DeadIn(Plan(ids, dead)) <==> k in ids && k in dead
  {
    if ids != [] {
      var rest, last := ids[..|ids| - 1], ids[|ids| - 1];
      PlanDead(rest, dead);
      KeepBound(rest, dead);
      var g := Gee(last, if last in dead then DELETED_ID else |Keep(rest, dead)| + 1);
      assert ids == rest + [last];
      DeadNext(Plan(rest, dead), g);
    }
  }

  lemma DeadNext(plan: seq<Gee>, g: Gee)
    ensures DeadIn(plan + [g]) == DeadIn(plan) + if g.to == DELETED_ID then {g.from} else {}
  {
    assert forall h :: h in plan + [g] <==> h in plan || h == g;
  }

  // ---------------------------------------------------------------- the tables afterwards

  function Dead(events: EventTable, now: int, delay: int): set<nat> {
    set k | k in events && ReadyForRemove(events[k].eventTime, now, delay)
  }

  function WithoutEvents(invites: InviteTable, dead: set<nat>): InviteTable {
    map i | i in invites && invites[i].eventId !in dead :: invites[i]
  }

  function Redirected(invites: InviteTable, remap: seq<Gee>): InviteTable {
    map i | i in invites :: invites[i].(eventId := RedirectAll(invites[i].eventId, remap))
  }

  ghost function Ranked(invites: InviteTable, keep: seq<nat>): InviteTable {
    map i | i in invites :: invites[i].(eventId := Rank(keep, invites[i].eventId))
  }

  lemma RedirectedIsRanked(invites: InviteTable, keep: seq<nat>)
    requires Ascending(keep) && 0 !in keep
    ensures Redirected(invites, Renumbering(keep)) == Ranked(invites, keep)
  {
    forall i | i in invites
      ensures RedirectAll(invites[i].eventId, Renumbering(keep)) == Rank(keep, invites[i].eventId)
    {
      RedirectIsRank(keep, invites[i].eventId);
    }
  }

  /** The invites that stay still refer to the event they referred to, or still to none. */
  ghost predicate SameTarget(events: EventTable, keep: seq<nat>, ref: nat)
    requires forall k :: k in keep ==> k in events
  {
    var compact, r := Compact(events, keep), Rank(keep, ref);
    if ref in keep then r in compact && compact[r] == events[ref] else r !in compact
  }

  lemma TargetOf(events: EventTable, keep: seq<nat>, ref: nat)
    requires Ascending(keep) && forall k :: k in keep ==> k in events
    ensures SameTarget(events, keep, ref) <==> ref in keep || !(1 <= ref <= |keep|)
  {
    RankPlace(keep, ref);
  }

  /** Renumbering keeps every reference exactly when no invite without an event has one of the new ids. */
  lemma ReferencesKept(events: EventTable, keep: seq<nat>, invites: InviteTable)
    requires Ascending(keep) && forall k :: k in keep ==> k in events
    ensures (forall i :: i in invites ==> SameTarget(events, keep, invites[i].eventId)) <==>
            (forall i :: i in invites ==> invites[i].eventId in keep || !(1 <= invites[i].eventId <= |keep|))
  {
    forall i | i in invites
      ensures SameTarget(events, keep, invites[i].eventId) <==>
              invites[i].eventId in keep || !(1 <= invites[i].eventId <= |keep|)
    {
      TargetOf(events, keep, invites[i].eventId);
    }
    hide SameTarget;
  }

  /** What becomes of the two tables: the events that have not expired, under the ids 1 to n in their old order,
      and the invites of the others, each with the new id of its event, under the ids 1 to m in their old order.
      Without any event nothing is touched. */
  ghost predicate Remapped(events: EventTable, invites: InviteTable, events': EventTable, invites': InviteTable,
                           keep: seq<nat>, order: seq<nat>, now: int, delay: int)
  {
    if events == map[] then events' == events && invites' == invites
    else
      var dead := Dead(events, now, delay);
      var ranked := Ranked(WithoutEvents(invites, dead), keep);
      && Lists(keep, events - dead) && events' == Compact(events - dead, keep)
      && Lists(order, ranked) && invites' == Compact(ranked, order)
  }

  /** The events that are not too old, in their old order, are the rows 1 to n; a negative delay keeps them all. */
  ghost predicate EventsLeft(events: EventTable, events': EventTable, keep: seq<nat>, now: int, delay: int) {
    && Ascending(keep)
    && (forall k :: k in keep <==> k in events && (delay < 0 || now < events[k].eventTime + delay))
    && (forall j :: j in events' <==> 1 <= j <= |keep|)
    && (forall i :: 0 <= i < |keep| ==> keep[i] in events && events'[i + 1] == events[keep[i]])
  }

  /** The invites to these events, and those that had none before, in their old order, are the rows 1 to m; each
      refers to the new place of its event, or to what it referred to. */
  ghost predicate InvitesLeft(events: EventTable, invites: InviteTable, invites': InviteTable, keep: seq<nat>,
                              order: seq<nat>, now: int, delay: int)
  {
    && Ascending(order)
    && (forall i :: i in order <==> i in invites && (invites[i].eventId in events ==> invites[i].eventId in keep))
    && (forall j :: j in invites' <==> 1 <= j <= |order|)
    && (forall i :: 0 <= i < |order| ==>
          order[i] in invites && InvitePlaced(invites[order[i]], invites'[i + 1], keep))
  }

  ghost predicate InvitePlaced(row: InviteRow, row': InviteRow, keep: seq<nat>) {
    && row' == row.(eventId := row'.eventId)
    && if row.eventId in keep then 1 <= row'.eventId <= |keep| && keep[row'.eventId - 1] == row.eventId
       else row'.eventId == row.eventId
  }

  lemma DeadExactly(events: EventTable, now: int, delay: int)
    ensures forall k :: k in events ==>
              (k in Dead(events, now, delay) <==> 0 <= delay && events[k].eventTime + delay <= now)
    ensures Dead(events, now, delay) <= events.Keys
  {
  }

  lemma RemappedExactly(events: EventTable, invites: InviteTable, events': EventTable, invites': InviteTable,
                        keep: seq<nat>, order: seq<nat>, now: int, delay: int)
    requires Remapped(events, invites, events', invites', keep, order, now, delay) && events != map[]
    ensures EventsLeft(events, events', keep, now, delay)
    ensures InvitesLeft(events, invites, invites', keep, order, now, delay)
  {
    var dead := Dead(events, now, delay);
    DeadExactly(events, now, delay);
    RankedKeys(invites, dead, keep);
    hide Dead, Ranked, WithoutEvents, Rank, Compact, Lists, EventsLeft, InvitesLeft;
    EventsLeftIs(events, dead, keep, now, delay);
    InvitesLeftIs(events, invites, Ranked(WithoutEvents(invites, dead), keep), dead, keep, order, now, delay);
  }

  lemma EventsLeftIs(events: EventTable, dead: set<nat>, keep: seq<nat>, now: int, delay: int)
    requires dead <= events.Keys && Lists(keep, events - dead)
    requires forall k :: k in events ==> (k in dead <==> 0 <= delay && events[k].eventTime + delay <= now)
    ensures EventsLeft(events, Compact(events - dead, keep), keep, now, delay)
  {
    CompactExactly(events - dead, keep);
    hide Compact;
  }

  lemma InvitesLeftIs(events: EventTable, invites: InviteTable, ranked: InviteTable, dead: set<nat>, keep: seq<nat>,
                      order: seq<nat>, now: int, delay: int)
    requires dead <= events.Keys && Lists(keep, events - dead) && Lists(order, ranked)
    requires forall i :: i in ranked <==> i in invites && invites[i].eventId !in dead
    requires forall i :: i in ranked ==> ranked[i] == invites[i].(eventId := Rank(keep, invites[i].eventId))
    ensures InvitesLeft(events, invites, Compact(ranked, order), keep, order, now, delay)
  {
    CompactExactly(ranked, order);
    hide Compact, InvitePlaced, Rank, Ascending;
    forall i | 0 <= i < |order|
      ensures order[i] in invites && InvitePlaced(invites[order[i]], Compact(ranked, order)[i + 1], keep)
    {
      PlacedExactly(invites[order[i]], keep);
    }
  }

  lemma CompactExactly<V>(table: map<nat, V>, ids: seq<nat>)
    requires forall k :: k in ids ==> k in table
    ensures forall j :: j in Compact(table, ids) <==> 1 <= j <= |ids|
    ensures forall i :: 0 <= i < |ids| ==> ids[i] in table && Compact(table, ids)[i + 1] == table[ids[i]]
  {
    forall i | 0 <= i < |ids| ensures ids[i] in table && Compact(table, ids)[i + 1] == table[ids[i]] {
      assert At(ids, i + 1) == ids[i];
    }
  }

  lemma PlacedExactly(row: InviteRow, keep: seq<nat>)
    requires Ascending(keep)
    ensures InvitePlaced(row, row.(eventId := Rank(keep, row.eventId)), keep)
  {
    RankPlace(keep, row.eventId);
  }

  lemma {:induction false} KeptAll(ids: seq<nat>, dead: set<nat>)
    ensures |Keep(ids, dead)| == |ids| ==> forall k :: k in ids ==> k !in dead
  {
    if ids != [] {
      var rest := ids[..|ids| - 1];
      KeptAll(rest, dead);
      KeepBound(rest, dead);
      assert ids == rest + [ids[|ids| - 1]];
    }
  }

  /** The events part of the work, all steps together. */
  lemma EventsRemapped(events: EventTable, ids: seq<nat>, dead: set<nat>)
    requires Lists(ids, events) && 0 !in events && |ids| < DELETED_ID && dead <= events.Keys
    ensures var keep := Keep(ids, dead);
            && Lists(keep, events - dead)
            && CollisionFree(events - dead, Remaps(Plan(ids, dead)))
            && MoveAll(events - dead, Remaps(Plan(ids, dead))) == Compact(events - dead, keep)
            && DeadIn(Plan(ids, dead)) == dead
            && Ascending(keep) && 0 !in keep
            && Remaps(Plan(ids, dead)) == Renumbering(keep)
  {
    KeepBound(ids, dead);
    KeepAscending(ids, dead);
    PlanRemaps(ids, dead);
    PlanDead(ids, dead);
    hide Keep, Plan, Remaps, DeadIn, CollisionFree, MoveAll;
    SequentialIsCompact(events - dead, Keep(ids, dead));
  }

  // ---------------------------------------------------------------- the stores afterwards

  /** The ids of a table are 1 to n. */
  ghost predicate Dense<R>(table: map<nat, R>, n: nat) { forall k :: k in table <==> 1 <= k <= n }

  function InviteesOf(invites: InviteTable, k: nat): set<nat> { set i | i in invites && invites[i].eventId == k }

  function LoadedEvents(events: EventTable, invites: InviteTable): map<nat, Event> {
    map k | k in events :: Event(events[k], InviteesOf(invites, k), true, false)
  }

  /** An invite without its event loses both ids and is marked for deletion. */
  function LoadedInvite(events: EventTable, i: nat, row: InviteRow): Invite {
    if row.eventId in events then Invite(i, row, true, false) else Invite(0, row.(eventId := 0), true, true)
  }

  function LoadedInvites(events: EventTable, invites: InviteTable): map<nat, Invite> {
    map i | i in invites :: LoadedInvite(events, i, invites[i])
  }

  /** Without an event all invites are thrown away. */
  function Loaded(events: EventTable, invites: InviteTable, n: nat, m: nat): Calendar {
    if events == map[] then Calendar(map[], map[], map[], map[], 1, 1)
    else Calendar(LoadedEvents(events, invites), LoadedInvites(events, invites), events, invites, n + 1, m + 1)
  }

  /** What the stores hold after a load: every event with its own row and with the invites that name it, every invite
      as its row says, and an invite that names no event under id 0, marked. */
  ghost predicate LoadedAs(c: Calendar, events: EventTable, invites: InviteTable) {
    && c.events.Keys == events.Keys && c.eventTable == events
    && (forall k :: k in events ==>
          && c.events[k].row == events[k] && c.events[k].saved && !c.events[k].deleted
          && (forall i :: i in c.events[k].invitees <==> i in invites && invites[i].eventId == k))
    && (if events == map[] then c.invites == map[] && c.inviteTable == map[]
        else
          && c.invites.Keys == invites.Keys && c.inviteTable == invites
          && (forall i :: i in invites ==>
                && c.invites[i].saved
                && (invites[i].eventId in events ==>
                      c.invites[i].row == invites[i] && c.invites[i].id == i && !c.invites[i].deleted)
                && (invites[i].eventId !in events ==>
                      c.invites[i].row == invites[i].(eventId := 0) && c.invites[i].id == 0 && c.invites[i].deleted)))
    && (forall k :: k in c.events ==> k < c.nextEvent)
    && (forall i :: i in c.invites ==> i < c.nextInvite)
  }

  lemma LoadedExactly(events: EventTable, invites: InviteTable, n: nat, m: nat)
    requires events != map[] ==> Dense(events, n) && Dense(invites, m)
    ensures LoadedAs(Loaded(events, invites, n, m), events, invites)
  {
  }

  /** A freshly loaded calendar is in step with its tables, and both id generators are past every loaded id. */
  lemma LoadedInSync(events: EventTable, invites: InviteTable, n: nat, m: nat)
    requires Dense(events, n) && Dense(invites, m)
    ensures InSync(Loaded(events, invites, n, m))
  {
    var c := Loaded(events, invites, n, m);
    if events != map[] {
      forall k | k in c.events ensures 0 < k < c.nextEvent && EventInSync(c, k) && Linked(c, k) {
      }
      forall i | i in c.invites ensures 0 < i < c.nextInvite && InviteInSync(c, i) {
      }
    }
  }

  /** The first tick removes the rows of invites without an event. */
  lemma OrphansGo(events: EventTable, invites: InviteTable, n: nat, m: nat, now: int, delay: int)
    requires Dense(events, n) && Dense(invites, m)
    ensures forall i :: i in Tick(Loaded(events, invites, n, m), now, delay).inviteTable ==>
              i in invites && invites[i].eventId in events
  {
    var c := Loaded(events, invites, n, m);
    LoadedInSync(events, invites, n, m);
    TickMeaning(c, now, delay);
    TickTables(c, now, delay);
    var t := Tick(c, now, delay);
    hide Tick, InSync, Survives, Doomed, InviteesOf;
    forall i | i in t.inviteTable ensures i in invites && invites[i].eventId in events {
      assert i in t.invites && i in c.invites;
    }
  }

  // ---------------------------------------------------------------- restarting after a run

  /** The invite is not yet written, and its event is gone or about to be erased. */
  ghost predicate Stray(c: Calendar, v: Invite, now: int, delay: int) {
    && !v.saved
    && (v.row.eventId !in c.events ||
        (c.events[v.row.eventId].saved && Doomed(c.events[v.row.eventId], now, delay)))
  }

  lemma StrayRows(c: Calendar, now: int, delay: int)
    requires InSync(c)
    ensures var t := Tick(c, now, delay);
            && (forall i :: i in t.inviteTable ==> i in c.invites && t.inviteTable[i] == c.invites[i].row)
            && (forall i :: i in c.invites ==>
                  (Stray(c, c.invites[i], now, delay) <==>
                   i in t.inviteTable && t.inviteTable[i].eventId !in t.eventTable))
  {
    TickMeaning(c, now, delay);
    TickTables(c, now, delay);
    hide Tick, InSync, Doomed;
  }

  /** After a tick every invite row has its event, exactly when no stray invite was there to be written. */
  lemma TickLeavesOrphansExactly(c: Calendar, now: int, delay: int)
    requires InSync(c)
    ensures var t := Tick(c, now, delay);
            (forall i :: i in t.inviteTable ==> t.inviteTable[i].eventId in t.eventTable) <==>
            (forall i :: i in c.invites ==> !Stray(c, c.invites[i], now, delay))
  {
    StrayRows(c, now, delay);
    hide Tick, Stray, InSync;
  }

  /** A restart right after a tick keeps every reference exactly when no stray invite names one of the new ids. */
  lemma RestartAfterTickExactly(c: Calendar, now: int, delay: int, keep: seq<nat>, now': int, delay': int)
    requires InSync(c)
    requires var t := Tick(c, now, delay); Lists(keep, t.eventTable - Dead(t.eventTable, now', delay'))
    ensures var t := Tick(c, now, delay);
            var dead := Dead(t.eventTable, now', delay');
            var invites := WithoutEvents(t.inviteTable, dead);
            (forall i :: i in invites ==> SameTarget(t.eventTable - dead, keep, invites[i].eventId)) <==>
            (forall i :: i in c.invites && Stray(c, c.invites[i], now, delay) ==>
                           !(1 <= c.invites[i].row.eventId <= |keep|))
  {
    var t := Tick(c, now, delay);
    var dead := Dead(t.eventTable, now', delay');
    var invites := WithoutEvents(t.inviteTable, dead);
    StrayRows(c, now, delay);
    hide Tick, Stray, InSync, SameTarget, Dead;
    ReferencesKept(t.eventTable - dead, keep, invites);
    assert dead <= t.eventTable.Keys by { DeadKnown(t.eventTable, now', delay'); }
    forall i | i in c.invites && Stray(c, c.invites[i], now, delay)
      ensures i in invites && invites[i] == c.invites[i].row && invites[i].eventId !in keep
    {
    }
  }

  lemma DeadKnown(events: EventTable, now: int, delay: int)
    ensures Dead(events, now, delay) <= events.Keys
  {
  }

  /** The invite comes through with its fields and its event, whatever their new ids are. */
  ghost predicate ComesThrough(c: Calendar, events: EventTable, invites: InviteTable, order: seq<nat>, j: nat) {
    && j in invites && 1 <= j <= |order| && At(order, j) in c.invites
    && var row := c.invites[At(order, j)].row;
       && invites[j] == row.(eventId := invites[j].eventId)
       && row.eventId in c.events
       && invites[j].eventId in events && events[invites[j].eventId] == c.events[row.eventId].row
  }

  /** From a quiet calendar a restart keeps everything that has not expired: each event and each invite to one of
      these comes through, an invite still with its event, and nothing is marked. */
  lemma RestartKeepsReferences(c: Calendar, events: EventTable, invites: InviteTable, keep: seq<nat>, order: seq<nat>,
                               now: int, delay: int)
    requires Quiet(c) && c.events != map[]
    requires Remapped(c.eventTable, c.inviteTable, events, invites, keep, order, now, delay)
    ensures var dead := Dead(c.eventTable, now, delay);
            && (forall k :: k in keep <==> k in c.events && k !in dead)
            && (forall i :: i in order <==> i in c.invites && c.invites[i].row.eventId !in dead)
    ensures forall j :: 1 <= j <= |order| ==> ComesThrough(c, events, invites, order, j)
    ensures var t := Loaded(events, invites, |keep|, |order|);
            forall j :: j in t.invites ==> !t.invites[j].deleted
  {
    RestartLists(c, events, invites, keep, order, now, delay);
    hide *;
    forall j | 1 <= j <= |order| ensures ComesThrough(c, events, invites, order, j) {
      RestartOne(c, events, invites, keep, order, now, delay, j);
    }
    AllHaveEvents(c, events, invites, order);
    LoadedUnmarked(events, invites, |keep|, |order|);
  }

  lemma RestartLists(c: Calendar, events: EventTable, invites: InviteTable, keep: seq<nat>, order: seq<nat>,
                     now: int, delay: int)
    requires Quiet(c) && c.events != map[]
    requires Remapped(c.eventTable, c.inviteTable, events, invites, keep, order, now, delay)
    ensures var dead := Dead(c.eventTable, now, delay);
            && (forall k :: k in keep <==> k in c.events && k !in dead)
            && (forall i :: i in order <==> i in c.invites && c.invites[i].row.eventId !in dead)
            && (forall j :: j in invites <==> 1 <= j <= |order|)
  {
    var dead := Dead(c.eventTable, now, delay);
    QuietRows(c);
    RankedKeys(c.inviteTable, dead, keep);
    hide Quiet, Dead, Ranked, WithoutEvents;
  }

  lemma QuietRows(c: Calendar)
    requires Quiet(c)
    ensures c.eventTable.Keys == c.events.Keys && c.inviteTable.Keys == c.invites.Keys
    ensures forall k :: k in c.events ==> c.eventTable[k] == c.events[k].row
    ensures forall i :: i in c.invites ==> c.inviteTable[i] == c.invites[i].row && c.invites[i].row.eventId in c.events
  {
    assert forall k :: k in c.eventTable <==> k in c.events;
    assert forall i :: i in c.inviteTable <==> i in c.invites;
  }

  lemma RankedKeys(invites: InviteTable, dead: set<nat>, keep: seq<nat>)
    ensures var ranked := Ranked(WithoutEvents(invites, dead), keep);
            && (forall i :: i in ranked <==> i in invites && invites[i].eventId !in dead)
            && (forall i :: i in ranked ==> ranked[i] == invites[i].(eventId := Rank(keep, invites[i].eventId)))
  {
    hide Rank;
  }

  lemma RestartOne(c: Calendar, events: EventTable, invites: InviteTable, keep: seq<nat>, order: seq<nat>,
                   now: int, delay: int, j: nat)
    requires Quiet(c) && c.events != map[] && 1 <= j <= |order|
    requires Remapped(c.eventTable, c.inviteTable, events, invites, keep, order, now, delay)
    ensures ComesThrough(c, events, invites, order, j)
  {
    RestartLists(c, events, invites, keep, order, now, delay);
    var dead := Dead(c.eventTable, now, delay);
    var i := At(order, j);
    assert i in order && i in c.invites;
    QuietRows(c);
    RankedKeys(c.inviteTable, dead, keep);
    hide Quiet, Dead, Ranked, WithoutEvents, Rank;
    TargetOf(c.eventTable - dead, keep, c.invites[i].row.eventId);
  }

  lemma AllHaveEvents(c: Calendar, events: EventTable, invites: InviteTable, order: seq<nat>)
    requires forall j :: j in invites <==> 1 <= j <= |order|
    requires forall j :: 1 <= j <= |order| ==> ComesThrough(c, events, invites, order, j)
    ensures forall j :: j in invites ==> invites[j].eventId in events
  {
    forall j | j in invites ensures invites[j].eventId in events {
      assert ComesThrough(c, events, invites, order, j);
    }
  }

  lemma LoadedUnmarked(events: EventTable, invites: InviteTable, n: nat, m: nat)
    requires forall j :: j in invites ==> invites[j].eventId in events
    ensures var t := Loaded(events, invites, n, m); forall j :: j in t.invites ==> !t.invites[j].deleted
  {
  }

  // ---------------------------------------------------------------- the smallest case

  function Meeting(title: string): EventRow { EventRow(1, 0, 0, 0, 0, 0, title, "") }

  function InviteTo(k: nat, invitee: nat): InviteRow { InviteRow(k, invitee, 1, 0, 0, 0, "") }

  const TABLE: EventTable := map[1 := Meeting("one"), 2 := Meeting("two")]
  const GUESTS: InviteTable := map[1 := InviteTo(1, 1), 2 := InviteTo(2, 1)]

  function Seated(first: set<nat>, removed: bool): map<nat, Event> {
    map[1 := Event(Meeting("one"), first, true, removed), 2 := Event(Meeting("two"), {2}, true, false)]
  }

  function Guests(): map<nat, Invite> {
    map[1 := Invite(1, InviteTo(1, 1), true, false), 2 := Invite(2, InviteTo(2, 1), true, false)]
  }

  /** Two events with an invite each, just loaded. */
  function TwoMeetings(): Calendar { Calendar(Seated({1}, false), Guests(), TABLE, GUESTS, 3, 3) }

  /** One more player has been invited to the first event; then its creator may remove it. */
  function OneMore(removed: bool): Calendar {
    Calendar(Seated({1, 3}, removed), Guests()[3 := Invite(3, InviteTo(1, 5), false, false)], TABLE, GUESTS, 3, 4)
  }

  lemma MeetingsLoaded()
    ensures Dense(TABLE, 2) && Dense(GUESTS, 2) && Loaded(TABLE, GUESTS, 2, 2) == TwoMeetings()
  {
    assert LoadedEvents(TABLE, GUESTS) == Seated({1}, false) by {
      assert InviteesOf(GUESTS, 1) == {1} && InviteesOf(GUESTS, 2) == {2};
      hide InviteesOf, Meeting, InviteTo;
    }
    assert LoadedInvites(TABLE, GUESTS) == Guests() by { hide Meeting; }
    assert TABLE != map[];
    hide LoadedEvents, LoadedInvites, Seated, Guests, Meeting, InviteTo;
  }

  lemma GuestInvited()
    ensures Apply(TwoMeetings(), DoInvite(1, InviteTo(1, 5))) == OneMore(false)
  {
    assert !Meeting("one").IsGuildAnnouncement();
    hide EventRow.IsGuildAnnouncement, Meeting;
    var e := Seated({1}, false)[1];
    assert e.invitees + {3} == {1, 3};
    assert Seated({1}, false)[1 := e.(invitees := {1, 3})] == Seated({1, 3}, false);
  }

  lemma MeetingRemoved()
    ensures Apply(OneMore(false), DoRemoveEvent(1, 1)) == OneMore(true)
  {
  }

  lemma RemovedInSync()
    ensures InSync(OneMore(true))
  {
    hide *;
    MeetingsLoaded();
    LoadedInSync(TABLE, GUESTS, 2, 2);
    GuestInvited();
    ApplyInSync(TwoMeetings(), DoInvite(1, InviteTo(1, 5)));
    MeetingRemoved();
    ApplyInSync(OneMore(false), DoRemoveEvent(1, 1));
  }

  lemma OneErased(c: Calendar, t: Calendar, now: int, delay: int, k: nat, j: nat, i: nat)
    requires Ticked(c, t, now, delay) && Followed(t) && c.events.Keys == {j, k} && j != k
    requires c.events[j].saved && c.events[j].deleted && Survives(c, k, now, delay)
    requires i in c.invites && !c.invites[i].saved
    ensures t.eventTable == map[k := c.events[k].row]
    ensures i in t.inviteTable && t.inviteTable[i] == c.invites[i].row
  {
    assert Doomed(c.events[j], now, delay) && !Doomed(c.events[k], now, delay);
    hide Doomed, DoomedInvite;
    assert t.events.Keys == {k};
  }

  lemma OneMoreIs()
    ensures var c := OneMore(true);
            && c.events.Keys == {1, 2} && c.events[1].saved && c.events[1].deleted && Survives(c, 2, 0, -1)
            && c.events[2].row == Meeting("two")
            && 3 in c.invites && !c.invites[3].saved && c.invites[3].row == InviteTo(1, 5)
  {
  }

  lemma RemovedTicked()
    ensures var t := Tick(OneMore(true), 0, -1);
            && t.eventTable == map[2 := Meeting("two")] && 3 in t.inviteTable && t.inviteTable[3] == InviteTo(1, 5)
  {
    hide *;
    var c := OneMore(true);
    RemovedInSync();
    TickMeaning(c, 0, -1);
    TickTables(c, 0, -1);
    OneMoreIs();
    OneErased(c, Tick(c, 0, -1), 0, -1, 2, 1, 3);
  }

  /** It happens: the next tick erases the event and writes the invite, and after a restart right then this invite
      is to the other event. */
  lemma StrayHappens()
    ensures var c, t := OneMore(true), Tick(OneMore(true), 0, -1);
            && InSync(c) && Stray(c, c.invites[3], 0, -1)
            && t.eventTable == map[2 := Meeting("two")] && 3 in t.inviteTable && t.inviteTable[3] == InviteTo(1, 5)
            && Rank([2], 1) == 1 == Rank([2], 2) && !SameTarget(t.eventTable, [2], 1)
  {
    RemovedInSync();
    RemovedTicked();
    hide Tick, InSync;
    assert Rank([], 1) == 1 && Ascending([2]);
    TargetOf(Tick(OneMore(true), 0, -1).eventTable, [2], 1);
  }
}
