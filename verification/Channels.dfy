/** Membership of a chat channel: who is on it, who owns it and who is banned.  Each command is a function on
    `Room` values; class `Channel` carries it out in place. */
module Channels {
  import opened Ordering

  const MEMBER_FLAG_NONE: bv8 := 0x00
  const MEMBER_FLAG_OWNER: bv8 := 0x01
  const MEMBER_FLAG_MODERATOR: bv8 := 0x02
  const MEMBER_FLAG_MUTED: bv8 := 0x08

  datatype PlayerInfo = PlayerInfo(player: nat, flags: bv8)
  {
    predicate Has(flag: bv8) { flags & flag != 0 }

    function With(flag: bv8, state: bool): PlayerInfo {
      this.(flags := if state then flags | flag else flags & !flag)
    }
  }

  /** What a map lookup makes of a guid that is not there. */
  const NO_INFO := PlayerInfo(0, MEMBER_FLAG_NONE)

  /** Guid 0 is no player; a built-in channel is constant. */
  datatype Room = Room(players: map<nat, PlayerInfo>, banned: set<nat>, owner: nat, constant: bool)

  function InfoOf(players: map<nat, PlayerInfo>, guid: nat): PlayerInfo {
    if guid in players then players[guid] else NO_INFO
  }

  /** Every bit but the given one is left alone. */
  lemma FlagSet(info: PlayerInfo, state: bool)
    ensures info.With(MEMBER_FLAG_OWNER, state).Has(MEMBER_FLAG_OWNER) <==> state
    ensures info.With(MEMBER_FLAG_MODERATOR, state).Has(MEMBER_FLAG_MODERATOR) <==> state
    ensures info.With(MEMBER_FLAG_MUTED, state).Has(MEMBER_FLAG_MUTED) <==> state
    ensures info.With(MEMBER_FLAG_MODERATOR, state).Has(MEMBER_FLAG_OWNER) <==> info.Has(MEMBER_FLAG_OWNER)
    ensures info.With(MEMBER_FLAG_MUTED, state).Has(MEMBER_FLAG_OWNER) <==> info.Has(MEMBER_FLAG_OWNER)
  {
  }

  // ---------------------------------------------------------------- commands

  /** Setting the owner flag looks the new owner up, and so adds him if he is not there. */
  function GiveTo(r: Room, guid: nat): Room {
    var players := if r.owner != 0 && r.owner in r.players
                   then r.players[r.owner := r.players[r.owner].With(MEMBER_FLAG_OWNER, false)] else r.players;
    if guid == 0 then r.(players := players, owner := 0)
    else r.(players := players[guid := InfoOf(players, guid).With(MEMBER_FLAG_OWNER, true)], owner := guid)
  }

  /** `admitted` stands for the tests on password, guild and channel kind. */
  function Join(r: Room, guid: nat, admitted: bool): Room {
    if guid == 0 || guid in r.players || guid in r.banned || !admitted then r
    else
      var in_ := r.(players := r.players[guid := PlayerInfo(guid, MEMBER_FLAG_NONE)]);
      if r.constant || r.owner != 0 then in_
      else
        var owned := GiveTo(in_, guid);
        owned.(players := owned.players[guid := InfoOf(owned.players, guid).With(MEMBER_FLAG_MODERATOR, true)])
  }

  /** The channel goes to the first of the remaining members. */
  ghost function Leave(r: Room, guid: nat): Room {
    if guid !in r.players then r
    else
      var left := r.(players := r.players - {guid});
      if !r.players[guid].Has(MEMBER_FLAG_OWNER) then left
      else GiveTo(left, if left.players != map[] then left.players[First(left.players.Keys)].player else 0)
  }

  predicate Moderates(r: Room, guid: nat, master: bool) {
    guid in r.players && (r.players[guid].Has(MEMBER_FLAG_MODERATOR) || master)
  }

  predicate MayKick(r: Room, guid: nat, master: bool, target: nat) {
    && Moderates(r, guid, master) && target in r.players
    && !(!master && r.owner == target && guid != r.owner)
  }

  function KickOrBan(r: Room, guid: nat, master: bool, target: nat, ban: bool): Room {
    if !MayKick(r, guid, master, target) then r
    else
      var out := r.(players := r.players - {target}, banned := if ban then r.banned + {target} else r.banned);
      if r.owner != target then out else GiveTo(out, if out.players != map[] then guid else 0)
  }

  function UnBan(r: Room, guid: nat, master: bool, target: nat): Room {
    if !Moderates(r, guid, master) then r else r.(banned := r.banned - {target})
  }

  /** `allowed` stands for the rule about the two teams. */
  function SetMode(r: Room, guid: nat, master: bool, target: nat, moderator: bool, state: bool, allowed: bool): Room {
    if !Moderates(r, guid, master) || (moderator && guid == r.owner && target == r.owner) || target !in r.players
       || !allowed || (r.owner == target && r.owner != guid)
    then r
    else
      var flag := if moderator then MEMBER_FLAG_MODERATOR else MEMBER_FLAG_MUTED;
      r.(players := r.players[target := r.players[target].With(flag, state)])
  }

  function SetOwner(r: Room, guid: nat, master: bool, target: nat, allowed: bool): Room {
    if guid !in r.players || (!master && guid != r.owner) || target !in r.players || !allowed then r
    else GiveTo(r.(players := r.players[target := r.players[target].With(MEMBER_FLAG_MODERATOR, true)]), target)
  }

  // ---------------------------------------------------------------- what every state keeps

  ghost predicate Named(r: Room) { forall g :: g in r.players ==> g != 0 && r.players[g].player == g }

  ghost predicate OneOwner(r: Room) {
    && (r.owner != 0 ==> r.owner in r.players)
    && (forall g :: g in r.players ==> (r.players[g].Has(MEMBER_FLAG_OWNER) <==> g == r.owner))
  }

  ghost predicate Good(r: Room) {
    && Named(r) && OneOwner(r)
    && (!r.constant ==> (r.owner != 0 <==> r.players != map[]))
    && r.players.Keys !! r.banned
  }

  /** Giving the channel to one of its members leaves him as its only owner. */
  lemma GiveOwner(r: Room, guid: nat)
    requires guid in r.players && guid != 0 && Named(r)
    requires forall g :: g in r.players && r.players[g].Has(MEMBER_FLAG_OWNER) ==> g == r.owner
    ensures var r' := GiveTo(r, guid);
            && OneOwner(r') && Named(r') && r'.players.Keys == r.players.Keys && r'.owner == guid
            && r'.banned == r.banned && r'.constant == r.constant
  {
    var players := if r.owner != 0 && r.owner in r.players
                   then r.players[r.owner := r.players[r.owner].With(MEMBER_FLAG_OWNER, false)] else r.players;
    if r.owner != 0 && r.owner in r.players { FlagSet(r.players[r.owner], false); }
    FlagSet(players[guid], true);
    SameName(players[guid], true);
    assert forall g :: g in players ==> players[g].player == g;
    hide PlayerInfo.Has, PlayerInfo.With;
    assert forall g :: g in players ==> !players[g].Has(MEMBER_FLAG_OWNER);
  }

  lemma SameName(info: PlayerInfo, state: bool)
    ensures info.With(MEMBER_FLAG_OWNER, state).player == info.player
  {
  }

  lemma NoFlags(guid: nat)
    ensures !PlayerInfo(guid, MEMBER_FLAG_NONE).Has(MEMBER_FLAG_OWNER)
  {
  }

  lemma JoinGood(r: Room, guid: nat, admitted: bool)
    requires Good(r)
    ensures Good(Join(r, guid, admitted))
  {
    if !(guid == 0 || guid in r.players || guid in r.banned || !admitted) {
      NoFlags(guid);
      hide PlayerInfo.Has, PlayerInfo.With;
      var in_ := r.(players := r.players[guid := PlayerInfo(guid, MEMBER_FLAG_NONE)]);
      assert guid in in_.players;
      if !(r.constant || r.owner != 0) {
        GiveOwner(in_, guid);
        var owned := GiveTo(in_, guid);
        FlagSet(owned.players[guid], true);
        SetInfo(owned, guid, owned.players[guid].With(MEMBER_FLAG_MODERATOR, true));
      }
    }
  }

  lemma SetInfo(r: Room, guid: nat, info: PlayerInfo)
    requires guid in r.players && info.player == r.players[guid].player && Named(r)
    requires info.Has(MEMBER_FLAG_OWNER) <==> r.players[guid].Has(MEMBER_FLAG_OWNER)
    ensures Named(r.(players := r.players[guid := info]))
    ensures OneOwner(r) ==> OneOwner(r.(players := r.players[guid := info]))
    ensures r.players[guid := info].Keys == r.players.Keys
  {
  }

  lemma LeaveGood(r: Room, guid: nat)
    requires Good(r)
    ensures Good(Leave(r, guid))
  {
    if guid in r.players {
      hide PlayerInfo.Has, PlayerInfo.With;
      var left := r.(players := r.players - {guid});
      if r.players[guid].Has(MEMBER_FLAG_OWNER) && left.players != map[] {
        GiveOwner(left, First(left.players.Keys));
      } else if left.players != map[] {
        assert left.owner in r.players || left.constant;
      } else {
        assert forall g :: g in r.players && g != guid ==> g in left.players;
      }
    }
  }

  /** The owner puts himself out while others are there. */
  predicate OwnerKicksHimself(r: Room, guid: nat, master: bool, target: nat) {
    MayKick(r, guid, master, target) && guid == target && target == r.owner && r.players.Keys != {target}
  }

  lemma KickGood(r: Room, guid: nat, master: bool, target: nat, ban: bool)
    requires Good(r) && !OwnerKicksHimself(r, guid, master, target)
    ensures Good(KickOrBan(r, guid, master, target, ban))
  {
    if MayKick(r, guid, master, target) {
      hide PlayerInfo.Has, PlayerInfo.With;
      var out := r.(players := r.players - {target}, banned := if ban then r.banned + {target} else r.banned);
      assert out.players.Keys == r.players.Keys - {target};
      if r.owner == target && out.players != map[] {
        assert guid in out.players;
        GiveOwner(out, guid);
      } else if r.owner == target {
        assert out.players == map[];
      } else if !r.constant {
        assert r.owner in out.players;
      }
    }
  }

  /** He is put back, but without his guid. */
  lemma SelfKickBad(r: Room, guid: nat, master: bool, target: nat, ban: bool)
    requires Good(r) && OwnerKicksHimself(r, guid, master, target)
    ensures !Named(KickOrBan(r, guid, master, target, ban))
  {
    var out := r.(players := r.players - {target}, banned := if ban then r.banned + {target} else r.banned);
    assert exists g :: g in r.players && g != target;
    var g :| g in r.players && g != target;
    assert g in out.players;
    var r' := KickOrBan(r, guid, master, target, ban);
    assert guid in r'.players && r'.players[guid].player == 0;
  }

  /** Kicking and banning keep the channel in order except when the owner puts himself out while others are there. */
  lemma KickGoodExactly(r: Room, guid: nat, master: bool, target: nat, ban: bool)
    requires Good(r)
    ensures Good(KickOrBan(r, guid, master, target, ban)) <==> !OwnerKicksHimself(r, guid, master, target)
  {
    hide KickOrBan, OwnerKicksHimself;
    if OwnerKicksHimself(r, guid, master, target) {
      SelfKickBad(r, guid, master, target, ban);
    } else {
      KickGood(r, guid, master, target, ban);
    }
  }

  lemma SetModeGood(r: Room, guid: nat, master: bool, target: nat, moderator: bool, state: bool, allowed: bool)
    requires Good(r)
    ensures Good(SetMode(r, guid, master, target, moderator, state, allowed))
  {
    if target in r.players {
      FlagSet(r.players[target], state);
      hide PlayerInfo.Has, PlayerInfo.With;
    }
  }

  lemma SetOwnerGood(r: Room, guid: nat, master: bool, target: nat, allowed: bool)
    requires Good(r)
    ensures Good(SetOwner(r, guid, master, target, allowed))
  {
    if target in r.players {
      FlagSet(r.players[target], true);
      hide PlayerInfo.Has, PlayerInfo.With;
      SetInfo(r, target, r.players[target].With(MEMBER_FLAG_MODERATOR, true));
      GiveOwner(r.(players := r.players[target := r.players[target].With(MEMBER_FLAG_MODERATOR, true)]), target);
    }
  }

  // ---------------------------------------------------------------- runs

  datatype Command =
    | DoJoin(guid: nat, admitted: bool)
    | DoLeave(guid: nat)
    | DoKickOrBan(guid: nat, master: bool, target: nat, ban: bool)
    | DoUnBan(guid: nat, master: bool, target: nat)
    | DoSetMode(guid: nat, master: bool, target: nat, moderator: bool, state: bool, allowed: bool)
    | DoSetOwner(guid: nat, master: bool, target: nat, allowed: bool)

  ghost function Apply(r: Room, c: Command): Room {
    match c
    case DoJoin(guid, admitted) => Join(r, guid, admitted)
    case DoLeave(guid) => Leave(r, guid)
    case DoKickOrBan(guid, master, target, ban) => KickOrBan(r, guid, master, target, ban)
    case DoUnBan(guid, master, target) => UnBan(r, guid, master, target)
    case DoSetMode(guid, master, target, moderator, state, allowed) =>
      SetMode(r, guid, master, target, moderator, state, allowed)
    case DoSetOwner(guid, master, target, allowed) => SetOwner(r, guid, master, target, allowed)
  }

  ghost function Run(r: Room, commands: seq<Command>): Room {
    if commands == [] then r else Apply(Run(r, commands[..|commands| - 1]), commands[|commands| - 1])
  }

  /** At no point does the owner put himself out while others are there. */
  ghost predicate NoSelfKick(r: Room, commands: seq<Command>) {
    commands != [] ==>
      var before, c := Run(r, commands[..|commands| - 1]), commands[|commands| - 1];
      && NoSelfKick(r, commands[..|commands| - 1])
      && (c.DoKickOrBan? ==> !OwnerKicksHimself(before, c.guid, c.master, c.target))
  }

  lemma ApplyGood(r: Room, c: Command)
    requires Good(r) && (c.DoKickOrBan? ==> !OwnerKicksHimself(r, c.guid, c.master, c.target))
    ensures Good(Apply(r, c))
  {
    hide Join, Leave, KickOrBan, SetMode, SetOwner, OwnerKicksHimself, Named, OneOwner;
    match c {
      case DoJoin(guid, admitted) => JoinGood(r, guid, admitted);
      case DoLeave(guid) => LeaveGood(r, guid);
      case DoKickOrBan(guid, master, target, ban) => KickGood(r, guid, master, target, ban);
      case DoUnBan(guid, master, target) => UnBanGood(r, guid, master, target);
      case DoSetMode(guid, master, target, moderator, state, allowed) =>
        SetModeGood(r, guid, master, target, moderator, state, allowed);
      case DoSetOwner(guid, master, target, allowed) => SetOwnerGood(r, guid, master, target, allowed);
    }
  }

  lemma UnBanGood(r: Room, guid: nat, master: bool, target: nat)
    requires Good(r)
    ensures Good(UnBan(r, guid, master, target))
  {
  }

  /** Over every run in which no owner puts himself out there is one owner flag at most, it is the owner's, a custom
      channel is owned exactly when it has members, and nobody who is banned is on it. */
  lemma {:induction false} RunGood(r: Room, commands: seq<Command>)
    requires Good(r) && NoSelfKick(r, commands)
    ensures Good(Run(r, commands))
  {
    hide Good, Apply, OwnerKicksHimself;
    if commands != [] {
      RunGood(r, commands[..|commands| - 1]);
      ApplyGood(Run(r, commands[..|commands| - 1]), commands[|commands| - 1]);
    }
  }

  /** It happens: two players join a new channel, and the first one kicks himself. */
  lemma SelfKickHappens()
    ensures var r := Apply(Apply(Room(map[], {}, 0, false), DoJoin(1, true)), DoJoin(2, true));
            && Good(r) && OwnerKicksHimself(r, 1, false, 1)
            && !Good(Apply(r, DoKickOrBan(1, false, 1, false)))
  {
    var none := Room(map[], {}, 0, false);
    var r := Join(Join(none, 1, true), 2, true);
    assert r.owner == 1 && r.players.Keys == {1, 2} && r.players[1].Has(MEMBER_FLAG_MODERATOR);
    JoinGood(none, 1, true);
    JoinGood(Join(none, 1, true), 2, true);
    KickGoodExactly(r, 1, false, 1, false);
    hide Good, KickOrBan;
  }

  lemma StaysBanned(r: Room, c: Command, guid: nat)
    requires guid in r.banned && !(c.DoUnBan? && c.target == guid)
    ensures guid in Apply(r, c).banned
  {
  }

  /** Who is banned stays out until he is unbanned. */
  lemma {:induction false} BannedStaysOut(r: Room, commands: seq<Command>, guid: nat)
    requires Good(r) && NoSelfKick(r, commands) && guid in r.banned
    requires forall i :: 0 <= i < |commands| ==> !(commands[i].DoUnBan? && commands[i].target == guid)
    ensures guid in Run(r, commands).banned && guid !in Run(r, commands).players
  {
    RunGood(r, commands);
    assert Run(r, commands).players.Keys !! Run(r, commands).banned;
    hide Apply, Good, OwnerKicksHimself;
    if commands != [] {
      BannedStaysOut(r, commands[..|commands| - 1], guid);
      StaysBanned(Run(r, commands[..|commands| - 1]), commands[|commands| - 1], guid);
    }
  }

  // ---------------------------------------------------------------- in place

  // ---------------------------------------------------------------- the whole effect of each command

  /** Bit 0x01 is the owner's, 0x02 a moderator's and 0x08 a muted player's. */
  ghost predicate MayModerate(r: Room, guid: nat, master: bool) {
    guid in r.players && (r.players[guid].flags & 0x02 != 0 || master)
  }

  ghost function Owning(info: PlayerInfo): PlayerInfo { info.(flags := info.flags | 0x01) }

  ghost function NotOwning(info: PlayerInfo): PlayerInfo { info.(flags := info.flags & 0xFE) }

  /** Handing over takes the owner's bit from one member and gives it to another. */
  ghost predicate HandedOver(before: map<nat, PlayerInfo>, after: map<nat, PlayerInfo>, from: nat, to: nat) {
    && after.Keys == before.Keys && to in before
    && after[to] == Owning(before[to])
    && (from != to && from in before ==> after[from] == NotOwning(before[from]))
    && (forall g :: g in before && g != from && g != to ==> after[g] == before[g])
  }

  /** Who leaves with the owner's bit passes the channel on to the first who stays. */
  ghost predicate LeftAs(r: Room, r': Room, guid: nat) {
    var rest := r.players - {guid};
    && r'.banned == r.banned && r'.constant == r.constant
    && if guid !in r.players then r' == r
       else if r.players[guid].flags & 0x01 == 0 then r'.players == rest && r'.owner == r.owner
       else if rest == map[] then r'.players == map[] && r'.owner == 0
       else
         && r'.owner in rest && (forall g :: g in rest ==> r'.owner <= g)
         && HandedOver(rest, r'.players, guid, r'.owner)
  }

  /** A ban puts the target on the list; a game master who removes the owner takes the channel over; an owner who
      removes himself is put back without his guid if others are there. */
  ghost predicate KickedAs(r: Room, r': Room, guid: nat, master: bool, target: nat, ban: bool) {
    var rest := r.players - {target};
    if !MayModerate(r, guid, master) || target !in r.players || (!master && target == r.owner && guid != r.owner)
    then r' == r
    else
      && r'.banned == (if ban then r.banned + {target} else r.banned) && r'.constant == r.constant
      && if target != r.owner then r'.players == rest && r'.owner == r.owner
         else if rest == map[] then r'.players == map[] && r'.owner == 0
         else if guid == target then
           r'.owner == guid && (guid != 0 ==> r'.players == rest[guid := PlayerInfo(0, 0x01)])
         else r'.owner == guid && (guid != 0 ==> HandedOver(rest, r'.players, target, guid))
  }

  /** A flag is set or cleared and the others stay. */
  ghost predicate ModeSetAs(r: Room, r': Room, guid: nat, master: bool, target: nat, moderator: bool, state: bool,
                            allowed: bool)
  {
    if !MayModerate(r, guid, master) || target !in r.players || !allowed
       || (target == r.owner && (guid != r.owner || moderator))
    then r' == r
    else
      var flags := r.players[target].flags;
      var flags' := if moderator then (if state then flags | 0x02 else flags & 0xFD)
                    else (if state then flags | 0x08 else flags & 0xF7);
      r' == r.(players := r.players[target := r.players[target].(flags := flags')])
  }

  /** The new owner becomes a moderator as well. */
  ghost predicate OwnerSetAs(r: Room, r': Room, guid: nat, master: bool, target: nat, allowed: bool) {
    if guid !in r.players || (!master && guid != r.owner) || target !in r.players || !allowed then r' == r
    else
      && r'.owner == target && r'.banned == r.banned && r'.constant == r.constant
      && HandedOver(r.players[target := r.players[target].(flags := r.players[target].flags | 0x02)], r'.players,
                    r.owner, target)
  }

  lemma OwnerBits(info: PlayerInfo)
    ensures info.With(MEMBER_FLAG_OWNER, true) == info.(flags := info.flags | 0x01)
    ensures info.With(MEMBER_FLAG_OWNER, false) == info.(flags := info.flags & 0xFE)
    ensures info.With(MEMBER_FLAG_MODERATOR, true) == info.(flags := info.flags | 0x02)
    ensures info.With(MEMBER_FLAG_MODERATOR, false) == info.(flags := info.flags & 0xFD)
    ensures info.With(MEMBER_FLAG_MUTED, true) == info.(flags := info.flags | 0x08)
    ensures info.With(MEMBER_FLAG_MUTED, false) == info.(flags := info.flags & 0xF7)
    ensures info.Has(MEMBER_FLAG_OWNER) <==> info.flags & 0x01 != 0
    ensures info.Has(MEMBER_FLAG_MODERATOR) <==> info.flags & 0x02 != 0
  {
  }

  lemma BitsAgain(flags: bv8)
    ensures (flags & 0xFE) | 0x01 == flags | 0x01
    ensures ((0 as bv8) | 0x01) | 0x02 == 0x03 && (0 as bv8) | 0x01 == 0x01
  {
  }

  lemma OwnerSet(info: PlayerInfo)
    ensures info.With(MEMBER_FLAG_OWNER, true) == Owning(info)
    ensures info.With(MEMBER_FLAG_OWNER, false) == NotOwning(info)
    ensures info.With(MEMBER_FLAG_OWNER, false).With(MEMBER_FLAG_OWNER, true) == Owning(info)
  {
    BitsAgain(info.flags);
  }

  lemma GiveExactly(r: Room, guid: nat)
    requires guid in r.players && guid != 0 && (r.owner in r.players ==> r.owner != 0)
    ensures HandedOver(r.players, GiveTo(r, guid).players, r.owner, guid)
    ensures GiveTo(r, guid) == r.(owner := guid, players := GiveTo(r, guid).players)
  {
    hide PlayerInfo.With, Owning, NotOwning;
    if r.owner in r.players { OwnerSet(r.players[r.owner]); }
    OwnerSet(r.players[guid]);
  }

  lemma GiveNone(r: Room)
    requires r.owner !in r.players
    ensures GiveTo(r, 0) == r.(owner := 0)
  {
  }

  lemma GiveAnew(r: Room, guid: nat)
    requires guid !in r.players && r.owner !in r.players
    ensures guid != 0 ==> GiveTo(r, guid) == r.(owner := guid, players := r.players[guid := PlayerInfo(0, 0x01)])
  {
    OwnerBits(NO_INFO);
    BitsAgain(0);
    hide PlayerInfo.With;
  }

  lemma JoinExactly(r: Room, guid: nat, admitted: bool)
    requires Good(r) && guid != 0
    ensures Join(r, guid, admitted) ==
            if guid in r.players || guid in r.banned || !admitted then r
            else if r.constant || r.owner != 0 then r.(players := r.players[guid := PlayerInfo(guid, 0)])
            else r.(players := r.players[guid := PlayerInfo(guid, 0x03)], owner := guid)
  {
    OwnerBits(PlayerInfo(guid, 0));
    OwnerBits(PlayerInfo(guid, 0x01));
    BitsAgain(0);
    hide PlayerInfo.With, Good;
  }

  lemma LeaveExactly(r: Room, guid: nat)
    requires Good(r)
    ensures LeftAs(r, Leave(r, guid), guid)
  {
    var left := r.(players := r.players - {guid});
    if guid in r.players {
      OwnerBits(r.players[guid]);
      if left.players != map[] {
        var first := First(left.players.Keys);
        assert left.players[first].player == first && first != 0;
        GiveExactly(left, first);
        assert r.players[guid].Has(MEMBER_FLAG_OWNER) ==> r.owner == guid;
      }
    }
    hide PlayerInfo.With, PlayerInfo.Has, GiveTo;
  }

  lemma KickExactly(r: Room, guid: nat, master: bool, target: nat, ban: bool)
    ensures KickedAs(r, KickOrBan(r, guid, master, target, ban), guid, master, target, ban)
  {
    var out := r.(players := r.players - {target}, banned := if ban then r.banned + {target} else r.banned);
    if guid in r.players { OwnerBits(r.players[guid]); }
    if r.owner == target {
      GiveNone(out);
      if guid in out.players && guid != 0 {
        GiveExactly(out, guid);
      } else if guid !in out.players {
        GiveAnew(out, guid);
      }
    }
    hide PlayerInfo.Has, GiveTo, HandedOver;
  }

  lemma SetModeExactly(r: Room, guid: nat, master: bool, target: nat, moderator: bool, state: bool, allowed: bool)
    ensures ModeSetAs(r, SetMode(r, guid, master, target, moderator, state, allowed),
                      guid, master, target, moderator, state, allowed)
  {
    if guid in r.players { OwnerBits(r.players[guid]); }
    if target in r.players { OwnerBits(r.players[target]); }
    hide PlayerInfo.With, PlayerInfo.Has;
  }

  lemma SetOwnerExactly(r: Room, guid: nat, master: bool, target: nat, allowed: bool)
    requires Good(r)
    ensures OwnerSetAs(r, SetOwner(r, guid, master, target, allowed), guid, master, target, allowed)
  {
    if target in r.players {
      OwnerBits(r.players[target]);
      GiveExactly(r.(players := r.players[target := r.players[target].With(MEMBER_FLAG_MODERATOR, true)]), target);
      hide PlayerInfo.With, GiveTo;
    }
  }

  class Channel {
    var m_players: map<nat, PlayerInfo>
    var m_banned: set<nat>
    var m_ownerGuid: nat
    const constant: bool

    ghost function S(): (r: Room)
      reads this
      ensures r.players == m_players && r.banned == m_banned && r.owner == m_ownerGuid && r.constant == constant
    {
      Room(m_players, m_banned, m_ownerGuid, constant)
    }

    constructor (builtIn: bool)
      ensures S() == Room(map[], {}, 0, builtIn) && Good(S())
    {
      m_players, m_banned, m_ownerGuid, constant := map[], {}, 0, builtIn;
    }

    /** The lookup adds what it does not find. */
    method SetOwnerGuid(guid: nat)
      modifies this`m_players, this`m_ownerGuid
      ensures S() == GiveTo(old(S()), guid)
    {
      hide PlayerInfo.With;
      if m_ownerGuid != 0 {
        if m_ownerGuid in m_players {
          m_players := m_players[m_ownerGuid := m_players[m_ownerGuid].With(MEMBER_FLAG_OWNER, false)];
        }
      }
      m_ownerGuid := guid;
      if m_ownerGuid != 0 {
        m_players := m_players[m_ownerGuid := InfoOf(m_players, m_ownerGuid).With(MEMBER_FLAG_OWNER, true)];
      }
    }

    method HandleJoin(guid: nat, admitted: bool)
      requires Good(S()) && guid != 0
      modifies this`m_players, this`m_ownerGuid
      ensures Good(S()) && S() == Join(old(S()), guid, admitted)
      ensures if guid in old(m_players) || guid in m_banned || !admitted then S() == old(S())
              else if constant || old(m_ownerGuid) != 0 then
                S() == old(S()).(players := old(m_players)[guid := PlayerInfo(guid, 0)])
              else S() == old(S()).(players := old(m_players)[guid := PlayerInfo(guid, 0x03)], owner := guid)
    {
      JoinGood(S(), guid, admitted);
      JoinExactly(S(), guid, admitted);
      hide Good, PlayerInfo.With, GiveTo;
      if guid in m_players {
        return;
      }
      if guid in m_banned {
        return;
      }
      if !admitted {
        return;
      }
      m_players := m_players[guid := PlayerInfo(guid, MEMBER_FLAG_NONE)];
      if !constant && m_ownerGuid == 0 {
        SetOwnerGuid(guid);
        m_players := m_players[guid := InfoOf(m_players, guid).With(MEMBER_FLAG_MODERATOR, true)];
      }
    }

    method HandleLeave(guid: nat)
      requires Good(S())
      modifies this`m_players, this`m_ownerGuid
      ensures Good(S()) && S() == Leave(old(S()), guid)
      ensures LeftAs(old(S()), S(), guid)
    {
      LeaveGood(S(), guid);
      LeaveExactly(S(), guid);
      hide Good, PlayerInfo.With, PlayerInfo.Has, GiveTo;
      if guid !in m_players {
        return;
      }
      var changeowner := m_players[guid].Has(MEMBER_FLAG_OWNER);
      m_players := m_players - {guid};
      if changeowner {
        var newowner := 0;
        if m_players != map[] {
          var first := Least(m_players.Keys);
          newowner := m_players[first].player;
        }
        SetOwnerGuid(newowner);
      }
    }

    /** `target` is 0 when no player of that name is online. */
    method HandleKickOrBan(guid: nat, master: bool, target: nat, ban: bool)
      modifies this
      ensures S() == KickOrBan(old(S()), guid, master, target, ban)
      ensures KickedAs(old(S()), S(), guid, master, target, ban)
      ensures old(Good(S())) ==> (Good(S()) <==> !old(OwnerKicksHimself(S(), guid, master, target)))
    {
      if Good(S()) { KickGoodExactly(S(), guid, master, target, ban); }
      KickExactly(S(), guid, master, target, ban);
      hide Good, PlayerInfo.With, PlayerInfo.Has, GiveTo, OwnerKicksHimself;
      if guid !in m_players {
        return;
      }
      if !m_players[guid].Has(MEMBER_FLAG_MODERATOR) && !master {
        return;
      }
      if target !in m_players {
        return;
      }
      var changeowner := m_ownerGuid == target;
      if !master && changeowner && guid != m_ownerGuid {
        return;
      }
      if ban && target !in m_banned {
        m_banned := m_banned + {target};
      }
      assert m_banned == if ban then old(m_banned) + {target} else old(m_banned);
      m_players := m_players - {target};
      if changeowner {
        var newowner := if m_players != map[] then guid else 0;
        SetOwnerGuid(newowner);
      }
    }

    method HandleUnBan(guid: nat, master: bool, target: nat)
      requires Good(S())
      modifies this`m_banned
      ensures Good(S()) && S() == UnBan(old(S()), guid, master, target)
      ensures m_banned == if MayModerate(S(), guid, master) then old(m_banned) - {target} else old(m_banned)
    {
      UnBanGood(S(), guid, master, target);
      if guid in m_players { OwnerBits(m_players[guid]); }
      hide Good, PlayerInfo.Has;
      if guid !in m_players {
        return;
      }
      if !m_players[guid].Has(MEMBER_FLAG_MODERATOR) && !master {
        return;
      }
      if target !in m_banned {
        assert m_banned - {target} == m_banned;
        return;
      }
      m_banned := m_banned - {target};
    }

    /** Setting a flag that is set already, or clearing one that is not, changes nothing. */
    lemma NoChange(info: PlayerInfo, state: bool)
      ensures (info.Has(MEMBER_FLAG_MODERATOR) <==> state) ==> info.With(MEMBER_FLAG_MODERATOR, state) == info
      ensures (info.Has(MEMBER_FLAG_MUTED) <==> state) ==> info.With(MEMBER_FLAG_MUTED, state) == info
    {
    }

    method HandleSetMode(guid: nat, master: bool, target: nat, moderator: bool, state: bool, allowed: bool)
      requires Good(S())
      modifies this`m_players
      ensures Good(S()) && S() == SetMode(old(S()), guid, master, target, moderator, state, allowed)
      ensures ModeSetAs(old(S()), S(), guid, master, target, moderator, state, allowed)
    {
      SetModeGood(S(), guid, master, target, moderator, state, allowed);
      SetModeExactly(S(), guid, master, target, moderator, state, allowed);
      NoChange(InfoOf(m_players, target), state);
      hide Good, PlayerInfo.With, PlayerInfo.Has;
      if guid !in m_players {
        return;
      }
      if !m_players[guid].Has(MEMBER_FLAG_MODERATOR) && !master {
        return;
      }
      if moderator && guid == m_ownerGuid && target == m_ownerGuid {
        return;
      }
      if target !in m_players || !allowed {
        return;
      }
      if m_ownerGuid == target && m_ownerGuid != guid {
        return;
      }
      var flag := if moderator then MEMBER_FLAG_MODERATOR else MEMBER_FLAG_MUTED;
      if m_players[target].Has(flag) != state {
        m_players := m_players[target := m_players[target].With(flag, state)];
      } else {
        assert m_players == m_players[target := m_players[target].With(flag, state)];
      }
    }

    method HandleSetOwner(guid: nat, master: bool, target: nat, allowed: bool)
      requires Good(S())
      modifies this`m_players, this`m_ownerGuid
      ensures Good(S()) && S() == SetOwner(old(S()), guid, master, target, allowed)
      ensures OwnerSetAs(old(S()), S(), guid, master, target, allowed)
    {
      SetOwnerGood(S(), guid, master, target, allowed);
      SetOwnerExactly(S(), guid, master, target, allowed);
      hide Good, PlayerInfo.With, GiveTo;
      if guid !in m_players {
        return;
      }
      if !master && guid != m_ownerGuid {
        return;
      }
      if target !in m_players || !allowed {
        return;
      }
      m_players := m_players[target := m_players[target].With(MEMBER_FLAG_MODERATOR, true)];
      SetOwnerGuid(target);
    }
  }
}
