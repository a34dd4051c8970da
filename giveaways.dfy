/**
 * The per-guild giveaway record (`giveaway_db`) and the steps that change it:
 * `giveaway_start`, `GiveawayView.join_button` and `end_giveaway` in main.py.
 * Each step is a function from the old store to a reply and the new store; the
 * bot class applies them to its field.
 */
module Giveaways {
  import opened Common

  /**
   * One guild's record. `messageId` is the id of the announcement message, which the
   * source stores after posting it; channel and end time are not modelled.
   */
  datatype Giveaway = Giveaway(
    active: bool,
    minInvites: int,
    requiredRole: Option<RoleId>,
    participants: seq<UserId>,
    messageId: MessageId)

  type Db = map<GuildId, Giveaway>

  datatype Step<+R> = Step(reply: R, db: Db)

  datatype StartReply = Started | AlreadyActive

  datatype JoinReply =
    | Joined
    | NotActive
    | AlreadyJoined
    | TooFewInvites(needed: int, have: int)
    | MissingRole(role: RoleId)

  datatype EndReply = NothingToEnd | NoParticipants | Winner(user: UserId)

  function Lookup(db: Db, g: GuildId): Option<Giveaway> {
    if g in db then Some(db[g]) else None
  }

  predicate IsActive(db: Db, g: GuildId) {
    g in db && db[g].active
  }

  /** Every guild's participant list is free of duplicates. */
  ghost predicate Valid(db: Db) {
    forall g :: g in db ==> Distinct(db[g].participants)
  }

  /**
   * `giveaway_start`: refused while the guild's giveaway is active; otherwise a fresh
   * record replaces whatever record the guild had (an ended one is not kept).
   */
  function Start(db: Db, g: GuildId, minInvites: int, role: Option<RoleId>, msg: MessageId): Step<StartReply> {
    if IsActive(db, g) then Step(AlreadyActive, db)
    else Step(Started, db[g := Giveaway(true, minInvites, role, [], msg)])
  }

  /**
   * The role gate of `join_button`: passes when no role is required (a role id of 0 is
   * falsy in the source and counts as none), when the required role no longer exists
   * in the guild (`get_role` returns None), or when the user holds it.
   */
  predicate RoleSatisfied(required: Option<RoleId>, guildRoles: set<RoleId>, userRoles: set<RoleId>) {
    match required
    case None => true
    case Some(r) => r == 0 || r !in guildRoles || r in userRoles
  }

  /** The four checks of `join_button`, in the source's order; the first that fails decides. */
  function Verdict(rec: Option<Giveaway>, u: UserId, invites: int,
                   guildRoles: set<RoleId>, userRoles: set<RoleId>): JoinReply {
    if rec.None? || !rec.value.active then NotActive
    else if u in rec.value.participants then AlreadyJoined
    else if invites < rec.value.minInvites then TooFewInvites(rec.value.minInvites, invites)
    else if !RoleSatisfied(rec.value.requiredRole, guildRoles, userRoles) then MissingRole(rec.value.requiredRole.value)
    else Joined
  }

  /** `join_button`: `invites` is the user's ledger count in the guild (0 when absent). */
  function Join(db: Db, g: GuildId, u: UserId, invites: int,
                guildRoles: set<RoleId>, userRoles: set<RoleId>): Step<JoinReply> {
    var v := Verdict(Lookup(db, g), u, invites, guildRoles, userRoles);
    if v == Joined then Step(v, db[g := db[g].(participants := db[g].participants + [u])])
    else Step(v, db)
  }

  /** `random.choice(participants)`, with the random draw as a parameter. */
  function Draw(participants: seq<UserId>, draw: nat): (w: UserId)
    requires |participants| > 0
    ensures w in participants
  {
    participants[draw % |participants|]
  }

  /**
   * Ending a giveaway (`end_giveaway`, as corrected, see `EndAsWritten`): nothing happens
   * unless the guild's giveaway is active; otherwise a winner is drawn when there are
   * participants and the record is marked inactive.
   */
  function End(db: Db, g: GuildId, draw: nat): Step<EndReply> {
    if !IsActive(db, g) then Step(NothingToEnd, db)
    else
      var rec := db[g];
      var closed := db[g := rec.(active := false)];
      if rec.participants == [] then Step(NoParticipants, closed)
      else Step(Winner(Draw(rec.participants, draw)), closed)
  }

  /**
   * The scheduled end of the giveaway announced in message `msg` (as corrected, see
   * `TimerExpiredAsWritten`): it ends the guild's giveaway only if that is still the
   * giveaway the timer was set for.
   */
  function TimerExpired(db: Db, g: GuildId, msg: MessageId, draw: nat): Step<EndReply> {
    if g in db && db[g].messageId == msg then End(db, g, draw)
    else Step(NothingToEnd, db)
  }

  // ---------------------------------------------------------------------------
  // Properties of the steps

  /** Starting never overwrites an active giveaway, and succeeds on every other guild state. */
  lemma StartGuarded(db: Db, g: GuildId, minInvites: int, role: Option<RoleId>, msg: MessageId)
    ensures var s := Start(db, g, minInvites, role, msg);
      (s.reply == AlreadyActive <==> IsActive(db, g)) &&
      (s.reply == AlreadyActive ==> s.db == db) &&
      (s.reply == Started ==>
        s.db.Keys == db.Keys + {g} &&
        s.db[g] == Giveaway(true, minInvites, role, [], msg) &&
        forall h :: h in db && h != g ==> s.db[h] == db[h])
  {
  }

  /**
   * A join is admitted exactly when all four checks pass: the giveaway is active, the
   * user is not in it yet, they have at least the minimum invites, and the role gate
   * passes. An admitted join only appends the user once; a refused one changes nothing.
   */
  lemma JoinAppendsOnce(db: Db, g: GuildId, u: UserId, invites: int,
                        guildRoles: set<RoleId>, userRoles: set<RoleId>)
    ensures var s := Join(db, g, u, invites, guildRoles, userRoles);
      (s.reply != Joined ==> s.db == db) &&
      (s.reply == Joined <==>
        IsActive(db, g) && u !in db[g].participants && invites >= db[g].minInvites &&
        RoleSatisfied(db[g].requiredRole, guildRoles, userRoles)) &&
      (s.reply == Joined ==>
        s.db.Keys == db.Keys &&
        s.db[g] == db[g].(participants := db[g].participants + [u]) &&
        forall h :: h in db && h != g ==> s.db[h] == db[h])
  {
  }

  /**
   * The reason a refusal reports is the first check, in the source's order, that fails:
   * not active, then already participating, then too few invites, then the missing role.
   */
  lemma JoinRefusalReasons(db: Db, g: GuildId, u: UserId, invites: int,
                           guildRoles: set<RoleId>, userRoles: set<RoleId>)
    ensures var r := Join(db, g, u, invites, guildRoles, userRoles).reply;
      && (r == NotActive <==> !IsActive(db, g))
      && (r == AlreadyJoined <==> IsActive(db, g) && u in db[g].participants)
      && (r.TooFewInvites? <==>
            IsActive(db, g) && u !in db[g].participants && invites < db[g].minInvites)
      && (r.TooFewInvites? ==> r.needed == db[g].minInvites && r.have == invites)
      && (r.MissingRole? <==>
            && IsActive(db, g) && u !in db[g].participants && invites >= db[g].minInvites
            && !RoleSatisfied(db[g].requiredRole, guildRoles, userRoles))
      && (r.MissingRole? ==> db[g].requiredRole == Some(r.role) && r.role in guildRoles && r.role !in userRoles)
  {
  }

  /** A participant list never grows while the giveaway is inactive. */
  lemma InactiveGiveawayIsFrozen(db: Db, g: GuildId, u: UserId, invites: int,
                                 guildRoles: set<RoleId>, userRoles: set<RoleId>)
    requires !IsActive(db, g)
    ensures Join(db, g, u, invites, guildRoles, userRoles) == Step(NotActive, db)
  {
  }

  /** A user who joined is turned away as already participating on every later attempt. */
  lemma RejoinRejected(db: Db, g: GuildId, u: UserId, invites: int, guildRoles: set<RoleId>, userRoles: set<RoleId>,
                       invites': int, guildRoles': set<RoleId>, userRoles': set<RoleId>)
    requires Join(db, g, u, invites, guildRoles, userRoles).reply == Joined
    ensures var db' := Join(db, g, u, invites, guildRoles, userRoles).db;
      Join(db', g, u, invites', guildRoles', userRoles') == Step(AlreadyJoined, db')
  {
    var db' := Join(db, g, u, invites, guildRoles, userRoles).db;
    assert db'[g].participants[|db'[g].participants| - 1] == u;
  }

  /** Eligibility is monotonic in the invite count: more invites never turn an admission into a rejection. */
  lemma JoinMonotoneInInvites(rec: Option<Giveaway>, u: UserId, invites: int, more: int,
                              guildRoles: set<RoleId>, userRoles: set<RoleId>)
    requires invites <= more
    requires Verdict(rec, u, invites, guildRoles, userRoles) == Joined
    ensures Verdict(rec, u, more, guildRoles, userRoles) == Joined
  {
  }

  /** Starting a giveaway keeps participant lists free of duplicates: a fresh record has none. */
  lemma StartKeepsValid(db: Db, g: GuildId, minInvites: int, role: Option<RoleId>, msg: MessageId)
    requires Valid(db)
    ensures Valid(Start(db, g, minInvites, role, msg).db)
  {
  }

  /** Joining keeps participant lists free of duplicates: a user is appended only when absent. */
  lemma JoinKeepsValid(db: Db, g: GuildId, u: UserId, invites: int, guildRoles: set<RoleId>, userRoles: set<RoleId>)
    requires Valid(db)
    ensures Valid(Join(db, g, u, invites, guildRoles, userRoles).db)
  {
    var s := Join(db, g, u, invites, guildRoles, userRoles);
    if s.reply == Joined {
      var p := db[g].participants + [u];
      forall i, j | 0 <= i < j < |p| ensures p[i] != p[j] {
        if j == |p| - 1 {
          assert p[i] in db[g].participants;
        }
      }
      assert s.db[g].participants == p;
    }
  }

  /** Ending a giveaway keeps participant lists free of duplicates: it only clears the active flag. */
  lemma EndKeepsValid(db: Db, g: GuildId, draw: nat)
    requires Valid(db)
    ensures Valid(End(db, g, draw).db)
  {
  }

  /** The timer keeps participant lists free of duplicates: it ends a giveaway or does nothing. */
  lemma TimerKeepsValid(db: Db, g: GuildId, msg: MessageId, draw: nat)
    requires Valid(db)
    ensures Valid(TimerExpired(db, g, msg, draw).db)
  {
    EndKeepsValid(db, g, draw);
  }

  /**
   * Ending an active giveaway closes it; the winner, if any, is one of its participants,
   * and there is none exactly when it had no participants. An inactive or missing
   * giveaway is left as it is.
   */
  lemma EndCloses(db: Db, g: GuildId, draw: nat)
    ensures var s := End(db, g, draw);
      (!IsActive(db, g) ==> s == Step(NothingToEnd, db)) &&
      (IsActive(db, g) ==>
        !IsActive(s.db, g) &&
        s.db == db[g := db[g].(active := false)] &&
        (s.reply == NoParticipants <==> db[g].participants == []) &&
        (s.reply.Winner? ==> s.reply.user in db[g].participants) &&
        s.reply != NothingToEnd)
  {
  }

  /** Ending twice is the same as ending once: the second call neither draws nor changes anything. */
  lemma EndIdempotent(db: Db, g: GuildId, draw: nat, draw': nat)
    ensures var db' := End(db, g, draw).db;
      End(db', g, draw') == Step(NothingToEnd, db')
  {
  }

  /** No participant is excluded from the draw: each one is the winner for some draw. */
  lemma EveryParticipantCanWin(participants: seq<UserId>, u: UserId)
    requires u in participants
    ensures exists draw: nat :: Draw(participants, draw) == u
  {
    var i :| 0 <= i < |participants| && participants[i] == u;
    assert Draw(participants, i) == u;
  }

  /** A timer set for an earlier giveaway leaves the guild's current giveaway alone. */
  lemma TimerOnlyEndsItsOwnGiveaway(db: Db, g: GuildId, msg: MessageId, draw: nat)
    requires g in db && db[g].messageId != msg
    ensures TimerExpired(db, g, msg, draw) == Step(NothingToEnd, db)
  {
  }

  /**
   * A timer set for the guild's active giveaway ends it exactly as `end_giveaway` would:
   * the giveaway is closed, a winner is drawn from its participants when there are any,
   * and nothing else changes.
   */
  lemma TimerEndsItsOwnGiveaway(db: Db, g: GuildId, msg: MessageId, draw: nat)
    requires IsActive(db, g) && db[g].messageId == msg
    ensures var s := TimerExpired(db, g, msg, draw);
      && s == End(db, g, draw)
      && s.db == db[g := db[g].(active := false)]
      && !IsActive(s.db, g)
      && (s.reply == NoParticipants <==> db[g].participants == [])
      && (s.reply.Winner? ==> s.reply.user in db[g].participants)
      && s.reply != NothingToEnd
  {
    EndCloses(db, g, draw);
  }

  // ---------------------------------------------------------------------------
  // The source as written, where it differs from the steps above

  /**
   * The timer of `giveaway_start` as written: after sleeping it calls `end_giveaway` for
   * the guild, whatever giveaway is active there by then.
   */
  function TimerExpiredAsWritten(db: Db, g: GuildId, draw: nat): Step<EndReply> {
    End(db, g, draw)
  }

  /**
   * Start a giveaway (message 100), end it by hand, start another (message 200): the first
   * giveaway's timer, as written, ends the second one; the corrected timer leaves it open.
   */
  lemma StaleTimerEndsNewerGiveaway()
    ensures var db1 := Start(map[], 1, 0, None, 100).db;
            var db2 := End(db1, 1, 0).db;
            var db3 := Start(db2, 1, 0, None, 200).db;
            IsActive(db3, 1) && db3[1].messageId == 200 &&
            !IsActive(TimerExpiredAsWritten(db3, 1, 0).db, 1) &&
            TimerExpired(db3, 1, 100, 0) == Step(NothingToEnd, db3)
  {
  }

  /** What one call of `end_giveaway` as written does. */
  datatype EndAttempt = Completed(reply: EndReply) | RaisedOnMissingWinner(user: UserId)

  /**
   * `end_giveaway` as written: `guild.get_member(winner)` is None for a winner who has left
   * the guild (`members` are the guild's current members), and `winner.mention` then raises
   * before the record is marked inactive.
   */
  function EndAsWritten(db: Db, g: GuildId, draw: nat, members: set<UserId>): (EndAttempt, Db) {
    var s := End(db, g, draw);
    if s.reply.Winner? && s.reply.user !in members then (RaisedOnMissingWinner(s.reply.user), db)
    else (Completed(s.reply), s.db)
  }

  /**
   * A giveaway whose only participant has left the guild can never be ended as written:
   * every attempt raises and the giveaway stays active.
   */
  lemma MissingWinnerKeepsGiveawayOpen(draw: nat)
    ensures var db := map[1 := Giveaway(true, 0, None, [7], 100)];
            var r := EndAsWritten(db, 1, draw, {});
            r.0 == RaisedOnMissingWinner(7) && r.1 == db && IsActive(r.1, 1)
  {
  }
}
