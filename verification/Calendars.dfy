/** The calendar keeps events and invites in memory, writes changed ones back to two tables, and on start
    removes expired events and renumbers both tables.  `Calendar` is the whole state; class `CalendarMgr`
    (module `CalendarManager`) is proved to carry these operations out in place. */
module Calendars {
  import opened CalendarRemap

  const CALENDAR_FLAG_GUILD_ANNOUNCEMENT: bv32 := 0x040
  const CALENDAR_FLAG_GUILD_EVENT: bv32 := 0x400

  /** The saved fields; a row of the events table. */
  datatype EventRow = EventRow(
    creator: nat,
    guildId: nat,
    kind: nat,
    flags: bv32,
    dungeonId: int,
    eventTime: int,
    title: string,
    description: string)
  {
    predicate IsGuildAnnouncement() { flags & CALENDAR_FLAG_GUILD_ANNOUNCEMENT != 0 }
    predicate IsGuildEvent() { flags & CALENDAR_FLAG_GUILD_EVENT != 0 }
  }

  datatype InviteRow = InviteRow(
    eventId: nat,
    invitee: nat,
    sender: nat,
    status: nat,
    lastUpdateTime: int,
    rank: nat,
    text: string)

  datatype Event = Event(row: EventRow, invitees: set<nat>, saved: bool, deleted: bool)

  /** `id` is 0 for an invite that was loaded without its event. */
  datatype Invite = Invite(id: nat, row: InviteRow, saved: bool, deleted: bool)

  datatype Calendar = Calendar(
    events: map<nat, Event>,
    invites: map<nat, Invite>,
    eventTable: map<nat, EventRow>,
    inviteTable: map<nat, InviteRow>,
    nextEvent: nat,
    nextInvite: nat)

  /** A negative delay keeps old events for ever. */
  predicate ReadyForRemove(eventTime: int, now: int, delay: int) { delay >= 0 && eventTime + delay <= now }

  predicate Live(events: map<nat, Event>, k: nat) { k in events && !events[k].deleted }

  predicate LiveInvite(invites: map<nat, Invite>, i: nat) { i in invites && !invites[i].deleted }

  // ---------------------------------------------------------------- requests

  function AddEvent(c: Calendar, row: EventRow, now: int): Calendar {
    if row.title == "" || row.eventTime < now then c
    else c.(events := c.events[c.nextEvent := Event(row, {}, false, false)], nextEvent := c.nextEvent + 1)
  }

  /** An invite to a guild announcement is made and marked for deletion at once. */
  function AddInvite(c: Calendar, k: nat, row: InviteRow): Calendar
    requires k in c.events
  {
    var i := c.nextInvite;
    var announced := c.events[k].row.IsGuildAnnouncement();
    var e := c.events[k];
    c.(invites := c.invites[i := Invite(i, row.(eventId := k), false, announced)],
       events := if announced then c.events else c.events[k := e.(invitees := e.invitees + {i})],
       nextInvite := i + 1)
  }

  function Invited(c: Calendar, k: nat, row: InviteRow): Calendar {
    if Live(c.events, k) then AddInvite(c, k, row) else c
  }

  /** Creator and guild stay; `permitted` stands for the tests on the sender. */
  function UpdateEvent(c: Calendar, k: nat, row: EventRow, permitted: bool): Calendar {
    if !Live(c.events, k) || !permitted then c
    else
      var e := c.events[k];
      c.(events := c.events[k := e.(row := row.(creator := e.row.creator, guildId := e.row.guildId), saved := false)])
  }

  function RemoveEvent(c: Calendar, k: nat, remover: nat): Calendar {
    if !Live(c.events, k) || remover != c.events[k].row.creator then c
    else c.(events := c.events[k := c.events[k].(deleted := true)])
  }

  predicate Reachable(c: Calendar, k: nat, i: nat) {
    Live(c.events, k) && i in c.events[k].invitees && LiveInvite(c.invites, i)
  }

  datatype Change = NewStatus(status: nat, time: int) | NewRank(rank: nat)

  function Changed(row: InviteRow, change: Change): InviteRow {
    match change
    case NewStatus(status, time) => row.(status := status, lastUpdateTime := time)
    case NewRank(rank) => row.(rank := rank)
  }

  function ChangeInvite(c: Calendar, k: nat, i: nat, change: Change, permitted: bool): Calendar {
    if !Reachable(c, k, i) || !permitted then c
    else c.(invites := c.invites[i := c.invites[i].(row := Changed(c.invites[i].row, change), saved := false)])
  }

  function FlagInvites(invites: map<nat, Invite>, ids: set<nat>): map<nat, Invite> {
    map i | i in invites :: if i in ids then invites[i].(deleted := true) else invites[i]
  }

  function RemoveInvite(c: Calendar, k: nat, i: nat, permitted: bool): Calendar {
    if !Reachable(c, k, i) || !permitted || c.events[k].row.creator == c.invites[i].row.invitee then c
    else c.(invites := FlagInvites(c.invites, {i}))
  }

  function OwnInvites(c: Calendar, k: nat, player: nat): set<nat>
    requires k in c.events
  {
    set i | i in c.events[k].invitees && i in c.invites && c.invites[i].row.invitee == player
  }

  /** One event of a leaving player: his invites to it and the event are marked. */
  function RemoveOwn(c: Calendar, k: nat, player: nat): Calendar {
    if !Live(c.events, k) || c.events[k].row.creator != player then c
    else
      c.(invites := FlagInvites(c.invites, OwnInvites(c, k, player)),
         events := c.events[k := c.events[k].(deleted := true)])
  }

  /** The live events a player made; with `guildOnly` just those for his guild. */
  predicate Leaving(e: Event, player: nat, guildOnly: bool) {
    && e.row.creator == player && !e.deleted
    && (guildOnly ==> e.row.IsGuildEvent() || e.row.IsGuildAnnouncement())
  }

  function LeavingEvents(c: Calendar, player: nat, guildOnly: bool): set<nat> {
    set k | k in c.events && Leaving(c.events[k], player, guildOnly)
  }

  function FlagEvents(events: map<nat, Event>, ks: set<nat>): map<nat, Event> {
    map k | k in events :: if k in ks then events[k].(deleted := true) else events[k]
  }

  function AllOwnInvites(c: Calendar, ks: set<nat>, player: nat): set<nat> {
    set k, i | k in ks && k in c.events && i in OwnInvites(c, k, player) :: i
  }

  /** Several events at once: they are marked, and so are the player's invites to them. */
  function RemoveAllOwn(c: Calendar, ks: set<nat>, player: nat): Calendar {
    c.(events := FlagEvents(c.events, ks), invites := FlagInvites(c.invites, AllOwnInvites(c, ks, player)))
  }

  lemma FlagMore(invites: map<nat, Invite>, a: set<nat>, b: set<nat>)
    ensures FlagInvites(FlagInvites(invites, a), b) == FlagInvites(invites, a + b)
    ensures FlagInvites(invites, {}) == invites
  {
  }

  lemma RemoveNone(c: Calendar, player: nat)
    ensures RemoveAllOwn(c, {}, player) == c
  {
    assert AllOwnInvites(c, {}, player) == {};
  }

  /** Removing the events of a player one by one removes them all at once. */
  lemma RemoveOneMore(c: Calendar, ks: set<nat>, k: nat, player: nat)
    requires k in c.events && k !in ks && Leaving(c.events[k], player, false)
    ensures RemoveOwn(RemoveAllOwn(c, ks, player), k, player) == RemoveAllOwn(c, ks + {k}, player)
  {
    var r := RemoveAllOwn(c, ks, player);
    assert OwnInvites(r, k, player) == OwnInvites(c, k, player);
    forall i
      ensures i in AllOwnInvites(c, ks + {k}, player) <==>
              i in AllOwnInvites(c, ks, player) + OwnInvites(c, k, player)
    {
    }
    FlagMore(c.invites, AllOwnInvites(c, ks, player), OwnInvites(c, k, player));
    hide OwnInvites, AllOwnInvites, FlagInvites;
    assert AllOwnInvites(c, ks + {k}, player) == AllOwnInvites(c, ks, player) + OwnInvites(c, k, player);
    assert FlagEvents(c.events, ks + {k}) == r.events[k := r.events[k].(deleted := true)];
  }

  // ---------------------------------------------------------------- the tick

  function MarkedEvent(e: Event, now: int, delay: int): Event {
    if !e.deleted && (ReadyForRemove(e.row.eventTime, now, delay) || e.invitees == {}) then e.(deleted := true) else e
  }

  function MarkedInvite(events: map<nat, Event>, i: Invite): Invite {
    if !i.deleted && (i.row.eventId == 0 || !Live(events, i.row.eventId)) then i.(deleted := true) else i
  }

  function MarkEvents(events: map<nat, Event>, now: int, delay: int): map<nat, Event> {
    map k | k in events :: MarkedEvent(events[k], now, delay)
  }

  function MarkInvites(events: map<nat, Event>, invites: map<nat, Invite>): map<nat, Invite> {
    map i | i in invites :: MarkedInvite(events, invites[i])
  }

  function Mark(c: Calendar, now: int, delay: int): Calendar {
    var events := MarkEvents(c.events, now, delay);
    c.(events := events, invites := MarkInvites(events, c.invites))
  }

  /** What has been saved and is marked leaves; a destructor then marks the invites of the event. */
  predicate Erased(e: Event) { e.saved && e.deleted }

  predicate RowStays<R>(table: map<nat, R>, k: nat, stored: bool, saved: bool, deleted: bool) {
    if stored then !saved || (!deleted && k in table) else k in table
  }

  function SavedEventTable(events: map<nat, Event>, table: map<nat, EventRow>): map<nat, EventRow> {
    map k | k in table.Keys + events.Keys &&
            RowStays(table, k, k in events, k in events && events[k].saved, k in events && events[k].deleted) ::
      if k in events && !events[k].saved then events[k].row else table[k]
  }

  function SavedEvents(events: map<nat, Event>): map<nat, Event> {
    map k | k in events && !Erased(events[k]) :: events[k].(saved := true)
  }

  function Abandoned(events: map<nat, Event>): set<nat> {
    set k, i | k in events && Erased(events[k]) && i in events[k].invitees :: i
  }

  function SaveEvents(c: Calendar): Calendar {
    c.(events := SavedEvents(c.events),
       eventTable := SavedEventTable(c.events, c.eventTable),
       invites := FlagInvites(c.invites, Abandoned(c.events)))
  }

  /** An invite without an id is never written. */
  function SavedInviteTable(invites: map<nat, Invite>, table: map<nat, InviteRow>): map<nat, InviteRow> {
    map i | i in table.Keys + invites.Keys &&
            RowStays(table, i, i in invites && (invites[i].saved || invites[i].id != 0),
                     i in invites && invites[i].saved, i in invites && invites[i].deleted) ::
      if i in invites && !invites[i].saved && invites[i].id != 0 then invites[i].row else table[i]
  }

  function SavedInvites(invites: map<nat, Invite>): map<nat, Invite> {
    map i | i in invites && !(invites[i].saved && invites[i].deleted) :: invites[i].(saved := true)
  }

  function SaveInvites(c: Calendar): Calendar {
    c.(invites := SavedInvites(c.invites), inviteTable := SavedInviteTable(c.invites, c.inviteTable))
  }

  function Save(c: Calendar): Calendar { SaveInvites(SaveEvents(c)) }

  function Tick(c: Calendar, now: int, delay: int): Calendar { Save(Mark(c, now, delay)) }

  // ---------------------------------------------------------------- what every state keeps

  ghost predicate EventInSync(c: Calendar, k: nat)
    requires k in c.events
  {
    var e := c.events[k];
    e.saved ==> k in c.eventTable && c.eventTable[k] == e.row
  }

  ghost predicate InviteInSync(c: Calendar, i: nat)
    requires i in c.invites
  {
    var v := c.invites[i];
    && (v.id == i || (v.id == 0 && v.saved && v.deleted))
    && (v.saved ==>
          i in c.inviteTable && v.row == if v.id != 0 then c.inviteTable[i] else c.inviteTable[i].(eventId := 0))
  }

  /** The invitees of an event are invites to this event, as far as they are still stored. */
  ghost predicate Linked(c: Calendar, k: nat)
    requires k in c.events
  {
    forall i :: i in c.events[k].invitees ==> i < c.nextInvite && (i in c.invites ==> c.invites[i].row.eventId == k)
  }

  /** A SAVED entry, marked or not, is in its table with the same fields, and no row is without an entry.  The one
      exception is an invite that was loaded without its event: the row still has the event id it came with. */
  ghost predicate InSync(c: Calendar) {
    && (forall k :: k in c.events ==> 0 < k < c.nextEvent && EventInSync(c, k) && Linked(c, k))
    && (forall i :: i in c.invites ==> 0 < i < c.nextInvite && InviteInSync(c, i))
    && c.eventTable.Keys <= c.events.Keys
    && c.inviteTable.Keys <= c.invites.Keys
    && 0 < c.nextEvent && 0 < c.nextInvite
  }

  datatype Op =
    | DoAddEvent(row: EventRow, now: int)
    | DoInvite(event: nat, invite: InviteRow)
    | DoUpdateEvent(event: nat, row: EventRow, permitted: bool)
    | DoRemoveEvent(event: nat, remover: nat)
    | DoChangeInvite(event: nat, id: nat, change: Change, permitted: bool)
    | DoRemoveInvite(event: nat, id: nat, permitted: bool)
    | DoRemoveOwn(event: nat, player: nat)
    | DoTick(now: int, delay: int)

  function Apply(c: Calendar, op: Op): Calendar {
    match op
    case DoAddEvent(row, now) => AddEvent(c, row, now)
    case DoInvite(k, row) => Invited(c, k, row)
    case DoUpdateEvent(k, row, permitted) => UpdateEvent(c, k, row, permitted)
    case DoRemoveEvent(k, remover) => RemoveEvent(c, k, remover)
    case DoChangeInvite(k, i, change, permitted) => ChangeInvite(c, k, i, change, permitted)
    case DoRemoveInvite(k, i, permitted) => RemoveInvite(c, k, i, permitted)
    case DoRemoveOwn(k, player) => RemoveOwn(c, k, player)
    case DoTick(now, delay) => Tick(c, now, delay)
  }

  ghost function Run(c: Calendar, ops: seq<Op>): Calendar {
    if ops == [] then c else Apply(Run(c, ops[..|ops| - 1]), ops[|ops| - 1])
  }

  // ---------------------------------------------------------------- what a tick decides

  ghost predicate Doomed(e: Event, now: int, delay: int) {
    e.deleted || ReadyForRemove(e.row.eventTime, now, delay) || e.invitees == {}
  }

  ghost predicate Survives(c: Calendar, k: nat, now: int, delay: int) {
    k in c.events && !Doomed(c.events[k], now, delay)
  }

  ghost predicate DoomedInvite(c: Calendar, v: Invite, now: int, delay: int) {
    v.deleted || v.row.eventId == 0 || !Survives(c, v.row.eventId, now, delay)
  }

  lemma MarkIsDoom(c: Calendar, now: int, delay: int)
    ensures var m := Mark(c, now, delay);
            && (forall k :: k in m.events <==> k in c.events)
            && (forall k :: k in c.events ==> m.events[k] == c.events[k].(deleted := Doomed(c.events[k], now, delay)))
            && (forall i :: i in m.invites <==> i in c.invites)
            && (forall i :: i in c.invites ==>
                  m.invites[i] == c.invites[i].(deleted := DoomedInvite(c, c.invites[i], now, delay)))
  {
  }

  /** The destructor of an erased event finds its invites already marked. */
  lemma AbandonedAreMarked(c: Calendar, now: int, delay: int)
    requires InSync(c)
    ensures var m := Mark(c, now, delay);
            FlagInvites(m.invites, Abandoned(m.events)) == m.invites
  {
    MarkIsDoom(c, now, delay);
    var m := Mark(c, now, delay);
    forall i | i in m.invites && i in Abandoned(m.events) ensures m.invites[i].deleted {
      var k :| k in m.events && Erased(m.events[k]) && i in m.events[k].invitees;
      assert Linked(c, k);
      assert c.invites[i].row.eventId == k && !Survives(c, k, now, delay);
    }
    hide Mark;
  }

  /** Unsaved entries are written, saved ones that are doomed leave, and nothing else changes. */
  ghost predicate Ticked(c: Calendar, t: Calendar, now: int, delay: int) {
    && (forall k :: k in t.events <==> k in c.events && !(c.events[k].saved && Doomed(c.events[k], now, delay)))
    && (forall k :: k in t.events ==>
          t.events[k] == c.events[k].(saved := true, deleted := Doomed(c.events[k], now, delay)))
    && (forall i :: i in t.invites <==>
          i in c.invites && !(c.invites[i].saved && DoomedInvite(c, c.invites[i], now, delay)))
    && (forall i :: i in t.invites ==>
          t.invites[i] == c.invites[i].(saved := true, deleted := DoomedInvite(c, c.invites[i], now, delay)))
    && t.nextEvent == c.nextEvent && t.nextInvite == c.nextInvite
  }

  ghost predicate Marked(c: Calendar, m: Calendar, now: int, delay: int) {
    && m == c.(events := m.events, invites := m.invites)
    && (forall k :: k in m.events <==> k in c.events)
    && (forall k :: k in c.events ==> m.events[k] == c.events[k].(deleted := Doomed(c.events[k], now, delay)))
    && (forall i :: i in m.invites <==> i in c.invites)
    && (forall i :: i in c.invites ==>
          m.invites[i] == c.invites[i].(deleted := DoomedInvite(c, c.invites[i], now, delay)))
    && FlagInvites(m.invites, Abandoned(m.events)) == m.invites
  }

  /** An event ends by being marked, by having no invitees, or by its age; a negative delay means never by age. */
  ghost predicate Ends(e: Event, now: int, delay: int) {
    e.deleted || e.invitees == {} || (0 <= delay && e.row.eventTime + delay <= now)
  }

  ghost predicate EndsWith(c: Calendar, v: Invite, now: int, delay: int) {
    || v.deleted || v.row.eventId == 0 || v.row.eventId !in c.events || Ends(c.events[v.row.eventId], now, delay)
  }

  /** What a tick makes of the stores: what ends and is written leaves, what ends and is not yet written is written
      and marked, and the rest is written as it is; the tables then say the same. */
  ghost predicate TickedAs(c: Calendar, t: Calendar, now: int, delay: int) {
    && (forall k :: k in t.events <==> k in c.events && !(c.events[k].saved && Ends(c.events[k], now, delay)))
    && (forall k :: k in t.events ==>
          t.events[k] == c.events[k].(saved := true, deleted := Ends(c.events[k], now, delay)))
    && (forall i :: i in t.invites <==>
          i in c.invites && !(c.invites[i].saved && EndsWith(c, c.invites[i], now, delay)))
    && (forall i :: i in t.invites ==>
          t.invites[i] == c.invites[i].(saved := true, deleted := EndsWith(c, c.invites[i], now, delay)))
    && t.eventTable == (map k | k in t.events :: t.events[k].row)
    && t.inviteTable == (map i | i in t.invites :: t.invites[i].row)
    && t.nextEvent == c.nextEvent && t.nextInvite == c.nextInvite
  }

  lemma DoomIsEnd(c: Calendar, now: int, delay: int)
    ensures forall k :: k in c.events ==> (Doomed(c.events[k], now, delay) <==> Ends(c.events[k], now, delay))
    ensures forall i :: i in c.invites ==>
              (DoomedInvite(c, c.invites[i], now, delay) <==> EndsWith(c, c.invites[i], now, delay))
  {
  }

  lemma TickExactly(c: Calendar, now: int, delay: int)
    requires InSync(c)
    ensures TickedAs(c, Tick(c, now, delay), now, delay)
  {
    hide *;
    TickMeaning(c, now, delay);
    TickTables(c, now, delay);
    DoomIsEnd(c, now, delay);
    TickedExactly(c, Tick(c, now, delay), now, delay);
  }

  lemma TickedExactly(c: Calendar, t: Calendar, now: int, delay: int)
    requires Ticked(c, t, now, delay) && Followed(t)
    requires forall k :: k in c.events ==> (Doomed(c.events[k], now, delay) <==> Ends(c.events[k], now, delay))
    requires forall i :: i in c.invites ==>
               (DoomedInvite(c, c.invites[i], now, delay) <==> EndsWith(c, c.invites[i], now, delay))
    ensures TickedAs(c, t, now, delay)
  {
    hide Doomed, DoomedInvite, Ends, EndsWith;
  }

  lemma SavedMeaning(c: Calendar, m: Calendar, now: int, delay: int)
    requires Marked(c, m, now, delay)
    ensures Ticked(c, Save(m), now, delay)
  {
    hide FlagInvites, Abandoned, Doomed, DoomedInvite, SavedEventTable, SavedInviteTable;
  }

  lemma TickMarks(c: Calendar, now: int, delay: int)
    requires InSync(c)
    ensures Marked(c, Mark(c, now, delay), now, delay)
  {
    MarkIsDoom(c, now, delay);
    AbandonedAreMarked(c, now, delay);
    hide MarkEvents, MarkInvites, FlagInvites, Abandoned, Doomed, DoomedInvite;
  }

  lemma TickMeaning(c: Calendar, now: int, delay: int)
    requires InSync(c)
    ensures Ticked(c, Tick(c, now, delay), now, delay)
  {
    hide Marked, Mark, Save, Ticked, InSync;
    TickMarks(c, now, delay);
    SavedMeaning(c, Mark(c, now, delay), now, delay);
  }

  function EventRows(events: map<nat, Event>): map<nat, EventRow> { map k | k in events :: events[k].row }

  function InviteRows(invites: map<nat, Invite>): map<nat, InviteRow> { map i | i in invites :: invites[i].row }

  lemma EventTableFollows(events: map<nat, Event>, table: map<nat, EventRow>)
    requires table.Keys <= events.Keys
    requires forall k :: k in events && events[k].saved ==> k in table && table[k] == events[k].row
    ensures var table', events' := SavedEventTable(events, table), SavedEvents(events);
            table' == EventRows(events')
  {
  }

  lemma InviteTableFollows(invites: map<nat, Invite>, table: map<nat, InviteRow>)
    requires table.Keys <= invites.Keys
    requires forall i :: i in invites && invites[i].saved && invites[i].id != 0 ==>
                           i in table && table[i] == invites[i].row
    requires forall i :: i in invites ==> invites[i].id != 0 || (invites[i].saved && invites[i].deleted)
    ensures var table', invites' := SavedInviteTable(invites, table), SavedInvites(invites);
            table' == InviteRows(invites')
  {
  }

  /** Both tables are the stores, marked entries included. */
  ghost predicate Followed(t: Calendar) {
    t.eventTable == EventRows(t.events) && t.inviteTable == InviteRows(t.invites)
  }

  /** Saved entries are in the tables, and no row is without an entry. */
  ghost predicate Trusted(m: Calendar) {
    && m.eventTable.Keys <= m.events.Keys && m.inviteTable.Keys <= m.invites.Keys
    && (forall k :: k in m.events ==> EventInSync(m, k))
    && (forall i :: i in m.invites ==> InviteInSync(m, i))
  }

  lemma MarkedEventTrusted(c: Calendar, m: Calendar, now: int, delay: int, k: nat)
    requires InSync(c) && Marked(c, m, now, delay) && k in m.events
    ensures EventInSync(m, k)
  {
    assert EventInSync(c, k);
    hide FlagInvites, Abandoned;
  }

  lemma MarkedInviteTrusted(c: Calendar, m: Calendar, now: int, delay: int, i: nat)
    requires InSync(c) && Marked(c, m, now, delay) && i in m.invites
    ensures i != 0 && InviteInSync(m, i)
  {
    assert InviteInSync(c, i);
    hide FlagInvites, Abandoned, Survives;
  }

  lemma MarkedTrusted(c: Calendar, m: Calendar, now: int, delay: int)
    requires InSync(c) && Marked(c, m, now, delay)
    ensures Trusted(m) && 0 !in m.invites && FlagInvites(m.invites, Abandoned(m.events)) == m.invites
  {
    hide FlagInvites, Abandoned, EventInSync, InviteInSync, Linked, Doomed, DoomedInvite;
    forall k | k in m.events ensures EventInSync(m, k) {
      MarkedEventTrusted(c, m, now, delay, k);
    }
    forall i | i in m.invites ensures i != 0 && InviteInSync(m, i) {
      MarkedInviteTrusted(c, m, now, delay, i);
    }
  }

  lemma SavedTables(m: Calendar)
    requires Trusted(m) && 0 !in m.invites && FlagInvites(m.invites, Abandoned(m.events)) == m.invites
    ensures Followed(Save(m))
  {
    hide FlagInvites, Abandoned, SavedEventTable, SavedInviteTable, SavedEvents, SavedInvites;
    EventTableFollows(m.events, m.eventTable);
    InviteTableFollows(m.invites, m.inviteTable);
  }

  /** After one tick both tables equal the stores. */
  lemma TickTables(c: Calendar, now: int, delay: int)
    requires InSync(c)
    ensures Followed(Tick(c, now, delay))
  {
    hide Marked, Mark, Save, Followed, InSync, Trusted, FlagInvites, Abandoned;
    TickMarks(c, now, delay);
    MarkedTrusted(c, Mark(c, now, delay), now, delay);
    SavedTables(Mark(c, now, delay));
  }

  // ---------------------------------------------------------------- every step keeps the tables in step

  lemma TickedEvent(c: Calendar, t: Calendar, now: int, delay: int, k: nat)
    requires InSync(c) && Ticked(c, t, now, delay) && Followed(t) && k in t.events
    ensures 0 < k < t.nextEvent && EventInSync(t, k) && Linked(t, k)
  {
    assert k in c.events && Linked(c, k);
    hide Doomed, DoomedInvite;
  }

  lemma TickedInvite(c: Calendar, t: Calendar, now: int, delay: int, i: nat)
    requires InSync(c) && Ticked(c, t, now, delay) && Followed(t) && i in t.invites
    ensures 0 < i < t.nextInvite && InviteInSync(t, i)
  {
    assert i in c.invites && InviteInSync(c, i);
    hide Doomed;
  }

  lemma TickInSync(c: Calendar, now: int, delay: int)
    requires InSync(c)
    ensures InSync(Tick(c, now, delay))
  {
    TickMeaning(c, now, delay);
    TickTables(c, now, delay);
    SyncBounds(c);
    hide *;
    var t := Tick(c, now, delay);
    forall k | k in t.events ensures 0 < k < t.nextEvent && EventInSync(t, k) && Linked(t, k) {
      TickedEvent(c, t, now, delay, k);
    }
    forall i | i in t.invites ensures 0 < i < t.nextInvite && InviteInSync(t, i) {
      TickedInvite(c, t, now, delay, i);
    }
    TickCounters(c, t, now, delay);
    NowInSync(t);
  }

  lemma SyncBounds(c: Calendar)
    requires InSync(c)
    ensures 0 < c.nextEvent && 0 < c.nextInvite
  {
  }

  lemma NowInSync(t: Calendar)
    requires forall k :: k in t.events ==> 0 < k < t.nextEvent && EventInSync(t, k) && Linked(t, k)
    requires forall i :: i in t.invites ==> 0 < i < t.nextInvite && InviteInSync(t, i)
    requires t.eventTable.Keys <= t.events.Keys && t.inviteTable.Keys <= t.invites.Keys
    requires 0 < t.nextEvent && 0 < t.nextInvite
    ensures InSync(t)
  {
    hide EventInSync, InviteInSync, Linked;
  }

  lemma TickCounters(c: Calendar, t: Calendar, now: int, delay: int)
    requires InSync(c) && Ticked(c, t, now, delay) && Followed(t)
    ensures 0 < t.nextEvent && 0 < t.nextInvite
    ensures t.eventTable.Keys <= t.events.Keys && t.inviteTable.Keys <= t.invites.Keys
  {
  }

  lemma AddEventInSync(c: Calendar, row: EventRow, now: int)
    requires InSync(c)
    ensures InSync(AddEvent(c, row, now))
  {
    var c' := AddEvent(c, row, now);
    forall k | k in c'.events ensures 0 < k < c'.nextEvent && EventInSync(c', k) && Linked(c', k) {
      if k in c.events { assert EventInSync(c, k) && Linked(c, k); }
    }
    forall i | i in c'.invites ensures 0 < i < c'.nextInvite && InviteInSync(c', i) {
      assert InviteInSync(c, i);
    }
  }

  lemma AddInviteInSync(c: Calendar, k: nat, row: InviteRow)
    requires InSync(c) && k in c.events
    ensures InSync(AddInvite(c, k, row)) && c.nextInvite !in c.events[k].invitees && c.nextInvite !in c.invites
  {
    var c' := AddInvite(c, k, row);
    assert Linked(c, k);
    forall j | j in c'.events ensures 0 < j < c'.nextEvent && EventInSync(c', j) && Linked(c', j) {
      assert EventInSync(c, j) && Linked(c, j);
    }
    forall i | i in c'.invites ensures 0 < i < c'.nextInvite && InviteInSync(c', i) {
      if i in c.invites { assert InviteInSync(c, i); }
    }
  }

  /** Changing one event without its row being trusted any longer, or without touching its row. */
  lemma EventPutInSync(c: Calendar, k: nat, e: Event)
    requires InSync(c) && k in c.events
    requires e.invitees == c.events[k].invitees
    requires e.saved ==> c.events[k].saved && e.row == c.events[k].row
    ensures InSync(c.(events := c.events[k := e]))
  {
    var c' := c.(events := c.events[k := e]);
    forall j | j in c'.events ensures 0 < j < c'.nextEvent && EventInSync(c', j) && Linked(c', j) {
      assert EventInSync(c, j) && Linked(c, j);
    }
    forall i | i in c'.invites ensures 0 < i < c'.nextInvite && InviteInSync(c', i) {
      assert InviteInSync(c, i);
    }
  }

  lemma InvitePutInSync(c: Calendar, i: nat, change: Change)
    requires InSync(c) && LiveInvite(c.invites, i)
    ensures InSync(c.(invites := c.invites[i := c.invites[i].(row := Changed(c.invites[i].row, change),
                                                              saved := false)]))
  {
    var c' := c.(invites := c.invites[i := c.invites[i].(row := Changed(c.invites[i].row, change), saved := false)]);
    forall j | j in c'.events ensures 0 < j < c'.nextEvent && EventInSync(c', j) && Linked(c', j) {
      assert EventInSync(c, j) && Linked(c, j);
    }
    forall j | j in c'.invites ensures 0 < j < c'.nextInvite && InviteInSync(c', j) {
      assert InviteInSync(c, j);
    }
  }

  lemma FlagInSync(c: Calendar, ids: set<nat>)
    requires InSync(c)
    ensures InSync(c.(invites := FlagInvites(c.invites, ids)))
  {
    var c' := c.(invites := FlagInvites(c.invites, ids));
    forall j | j in c'.events ensures 0 < j < c'.nextEvent && EventInSync(c', j) && Linked(c', j) {
      assert EventInSync(c, j) && Linked(c, j);
    }
    forall j | j in c'.invites ensures 0 < j < c'.nextInvite && InviteInSync(c', j) {
      assert InviteInSync(c, j);
    }
  }

  lemma ApplyInSync(c: Calendar, op: Op)
    requires InSync(c)
    ensures InSync(Apply(c, op))
  {
    hide InSync, FlagInvites, Tick;
    match op {
      case DoAddEvent(row, now) => AddEventInSync(c, row, now);
      case DoInvite(k, row) => if Live(c.events, k) { AddInviteInSync(c, k, row); }
      case DoUpdateEvent(k, row, permitted) =>
        if Live(c.events, k) {
          var e := c.events[k];
          EventPutInSync(c, k, e.(row := row.(creator := e.row.creator, guildId := e.row.guildId), saved := false));
        }
      case DoRemoveEvent(k, remover) =>
        if Live(c.events, k) { EventPutInSync(c, k, c.events[k].(deleted := true)); }
      case DoChangeInvite(k, i, change, permitted) =>
        if Reachable(c, k, i) { InvitePutInSync(c, i, change); }
      case DoRemoveInvite(k, i, permitted) => FlagInSync(c, {i});
      case DoRemoveOwn(k, player) =>
        if Live(c.events, k) {
          var own := OwnInvites(c, k, player);
          FlagInSync(c, own);
          EventPutInSync(c.(invites := FlagInvites(c.invites, own)), k, c.events[k].(deleted := true));
        }
      case DoTick(now, delay) => TickInSync(c, now, delay);
    }
  }

  /** Over every run of requests and ticks a SAVED entry has its fields in its table. */
  lemma {:induction false} RunInSync(c: Calendar, ops: seq<Op>)
    requires InSync(c)
    ensures InSync(Run(c, ops))
  {
    hide InSync, Apply;
    if ops != [] {
      RunInSync(c, ops[..|ops| - 1]);
      ApplyInSync(Run(c, ops[..|ops| - 1]), ops[|ops| - 1]);
    }
  }

  // ---------------------------------------------------------------- convergence

  /** Everything is saved, nothing is marked, the tables are the stores and every invite has its event. */
  ghost predicate Quiet(c: Calendar) {
    && (forall k :: k in c.events ==> c.events[k].saved && !c.events[k].deleted)
    && (forall i :: i in c.invites ==>
          c.invites[i].saved && !c.invites[i].deleted && c.invites[i].row.eventId in c.events)
    && c.eventTable == EventRows(c.events)
    && c.inviteTable == InviteRows(c.invites)
  }

  lemma SameSurvivors(c: Calendar, t: Calendar, now: int, delay: int)
    requires Ticked(c, t, now, delay)
    ensures forall k :: k in t.events ==> (Doomed(t.events[k], now, delay) <==> Doomed(c.events[k], now, delay))
    ensures forall k :: Survives(t, k, now, delay) <==> Survives(c, k, now, delay)
  {
  }

  lemma SameDoom(c: Calendar, t: Calendar, now: int, delay: int)
    requires Ticked(c, t, now, delay)
    ensures forall i :: i in t.invites ==>
              (DoomedInvite(t, t.invites[i], now, delay) <==> DoomedInvite(c, c.invites[i], now, delay))
  {
    SameSurvivors(c, t, now, delay);
    hide Doomed, Survives;
  }

  lemma TwoTicksEvents(c: Calendar, u: Calendar, t: Calendar, now: int, delay: int)
    requires Ticked(c, u, now, delay) && Ticked(u, t, now, delay)
    ensures forall k :: k in t.events <==> Survives(c, k, now, delay)
    ensures forall k :: k in t.events ==> k in c.events && t.events[k] == c.events[k].(saved := true)
  {
    SameSurvivors(c, u, now, delay);
  }

  lemma TwoTicksInvites(c: Calendar, u: Calendar, t: Calendar, now: int, delay: int)
    requires Ticked(c, u, now, delay) && Ticked(u, t, now, delay)
    ensures forall i :: i in t.invites <==> i in c.invites && !DoomedInvite(c, c.invites[i], now, delay)
    ensures forall i :: i in t.invites ==> t.invites[i] == c.invites[i].(saved := true)
  {
    SameDoom(c, u, now, delay);
    hide Doomed;
    forall i | i in t.invites ensures t.invites[i] == c.invites[i].(saved := true) {
      assert i in u.invites && i in c.invites && !c.invites[i].deleted;
    }
  }

  lemma SurvivesIsGoingOn(c: Calendar, now: int, delay: int)
    ensures forall k :: Survives(c, k, now, delay) <==> k in c.events && !Ends(c.events[k], now, delay)
  {
  }

  /** From any state two ticks without a request in between settle everything: exactly the events that are
      neither marked, expired nor without invitees stay, with their latest fields, exactly the unmarked invites
      to these stay, and the tables say the same. */
  lemma TwoTicksSettle(c: Calendar, now: int, delay: int)
    requires InSync(c)
    ensures var t := Tick(Tick(c, now, delay), now, delay);
            && Quiet(t)
            && (forall k :: k in t.events <==> Survives(c, k, now, delay))
            && (forall k :: k in t.events ==> t.events[k] == c.events[k].(saved := true))
            && (forall i :: i in t.invites <==> i in c.invites && !DoomedInvite(c, c.invites[i], now, delay))
            && (forall i :: i in t.invites ==> t.invites[i] == c.invites[i].(saved := true))
    ensures var t := Tick(Tick(c, now, delay), now, delay);
            && (forall k :: k in t.events <==> k in c.events && !Ends(c.events[k], now, delay))
            && (forall i :: i in t.invites <==> i in c.invites && !EndsWith(c, c.invites[i], now, delay))
  {
    hide *;
    var u := Tick(c, now, delay);
    TickMeaning(c, now, delay);
    TickInSync(c, now, delay);
    TickMeaning(u, now, delay);
    TickTables(u, now, delay);
    var t := Tick(u, now, delay);
    TwoTicksEvents(c, u, t, now, delay);
    TwoTicksInvites(c, u, t, now, delay);
    SettledIsQuiet(c, t, now, delay);
    DoomIsEnd(c, now, delay);
    SurvivesIsGoingOn(c, now, delay);
  }

  lemma SettledIsQuiet(c: Calendar, t: Calendar, now: int, delay: int)
    requires Followed(t)
    requires forall k :: k in t.events <==> Survives(c, k, now, delay)
    requires forall k :: k in t.events ==> k in c.events && t.events[k] == c.events[k].(saved := true)
    requires forall i :: i in t.invites <==> i in c.invites && !DoomedInvite(c, c.invites[i], now, delay)
    requires forall i :: i in t.invites ==> t.invites[i] == c.invites[i].(saved := true)
    ensures Quiet(t)
  {
  }

  /** And then nothing is left to do. */
  lemma QuietStays(c: Calendar, now: int, delay: int)
    requires InSync(c) && Quiet(c)
    requires forall k :: k in c.events ==> Survives(c, k, now, delay)
    ensures Tick(c, now, delay) == c
  {
    hide *;
    TickMeaning(c, now, delay);
    TickTables(c, now, delay);
    QuietSame(c, Tick(c, now, delay), now, delay);
  }

  lemma QuietNotDoomed(c: Calendar, now: int, delay: int)
    requires InSync(c) && Quiet(c)
    requires forall k :: k in c.events ==> Survives(c, k, now, delay)
    ensures forall i :: i in c.invites ==> !DoomedInvite(c, c.invites[i], now, delay)
    ensures forall k :: k in c.events ==> !Doomed(c.events[k], now, delay)
  {
  }

  lemma QuietStores(c: Calendar, t: Calendar, now: int, delay: int)
    requires Quiet(c) && Ticked(c, t, now, delay)
    requires forall i :: i in c.invites ==> !DoomedInvite(c, c.invites[i], now, delay)
    requires forall k :: k in c.events ==> !Doomed(c.events[k], now, delay)
    ensures t.events == c.events && t.invites == c.invites
  {
    hide Doomed, DoomedInvite;
  }

  lemma QuietSame(c: Calendar, t: Calendar, now: int, delay: int)
    requires InSync(c) && Quiet(c) && Ticked(c, t, now, delay) && Followed(t)
    requires forall k :: k in c.events ==> Survives(c, k, now, delay)
    ensures t == c
  {
    QuietNotDoomed(c, now, delay);
    QuietStores(c, t, now, delay);
    hide InSync, Doomed, DoomedInvite, Survives;
    assert t.eventTable == c.eventTable && t.inviteTable == c.inviteTable;
  }
}
