/**
 * The bot object of main.py (`DiscordBot`) with its four in-memory stores, and the
 * handlers that change them in place. Each handler is proved to leave the stores
 * exactly as the matching step function of the Ledger, InviteTracking, Giveaways and
 * Warnings modules says, and to keep the stores' invariants.
 */
module Bot {
  import opened Common
  import opened Ledger
  import opened InviteTracking
  import Giveaways
  import Warnings

  class DiscordBot {
    var invites: InvitesDb
    var giveaways: Giveaways.Db
    var warnings: Warnings.Db
    var inviteCache: Cache

    /** Every ledger has distinct inviters, every giveaway distinct participants. */
    ghost predicate Valid()
      reads this
    {
      ValidDb(invites) && Giveaways.Valid(giveaways)
    }

    /** `__init__`: the three stores as loaded from disk, and an empty invite cache. */
    constructor(loadedInvites: InvitesDb, loadedGiveaways: Giveaways.Db, loadedWarnings: Warnings.Db)
      requires ValidDb(loadedInvites) && Giveaways.Valid(loadedGiveaways)
      ensures Valid()
      ensures invites == loadedInvites && giveaways == loadedGiveaways && warnings == loadedWarnings
      ensures inviteCache == map[]
    {
      invites := loadedInvites;
      giveaways := loadedGiveaways;
      warnings := loadedWarnings;
      inviteCache := map[];
    }

    /**
     * `on_ready`: snapshot the invites of every guild; a guild whose invites cannot be
     * fetched is skipped.
     */
    method CacheGuildInvites(fetches: seq<(GuildId, Option<seq<Invite>>)>)
      modifies this`inviteCache
      ensures inviteCache == CacheOnReady(old(inviteCache), fetches)
    {
      for i := 0 to |fetches|
        invariant inviteCache == CacheOnReady(old(inviteCache), fetches[..i])
      {
        assert fetches[..i + 1][..i] == fetches[..i];
        var (g, fetched) := fetches[i];
        if fetched.Some? {
          inviteCache := inviteCache[g := SnapshotOf(fetched.value)];
        }
      }
      assert fetches[..|fetches|] == fetches;
    }

    /**
     * The invite tracking of `on_member_join`: scan the fresh invites in order, credit
     * the inviter of the first cached code whose uses grew, then refresh the cache.
     * `fetched` is None when `guild.invites()` raised.
     */
    method OnMemberJoin(g: GuildId, fetched: Option<seq<Invite>>) returns (r: Tracking)
      requires Valid()
      modifies this`invites, this`inviteCache
      ensures Valid()
      ensures TrackState(r, invites, inviteCache) == TrackJoin(old(invites), old(inviteCache), g, fetched)
    {
      if fetched.None? {
        return Failed;
      }
      var before := if g in inviteCache then inviteCache[g] else map[];
      var after := fetched.value;
      r := NoneUsed;
      var i := 0;
      while i < |after|
        invariant 0 <= i <= |after|
        invariant forall j :: 0 <= j < i ==> !Used(before, after[j])
        invariant invites == old(invites) && inviteCache == old(inviteCache) && r == NoneUsed
      {
        var invite := after[i];
        if invite.code in before && invite.uses > before[invite.code] {
          if invite.inviter.None? {
            // reading the inviter's id raises; the handler's except clause swallows it
            return Failed;
          }
          var inviter := invite.inviter.value;
          CreditGuildKeepsValid(invites, g, inviter);
          invites := CreditGuild(invites, g, inviter);
          r := Credited(inviter);
          break;
        }
        i := i + 1;
      }
      inviteCache := inviteCache[g := SnapshotOf(after)];
    }

    /**
     * `warn`: append one warning to the user's list and report how many they now have.
     * The reason defaults to "No reason provided", as the command's does.
     */
    method Warn(g: GuildId, u: UserId, moderator: UserId, timestamp: string,
                reason: string := Warnings.DefaultReason) returns (total: nat)
      modifies this`warnings
      ensures warnings == Warnings.AddWarning(old(warnings), g, u, Warnings.Warning(reason, moderator, timestamp))
      ensures total == |Warnings.History(warnings, g, u)| == |Warnings.History(old(warnings), g, u)| + 1
    {
      ghost var history := Warnings.History(warnings, g, u);
      ghost var guildBefore := if g in warnings then warnings[g] else map[];
      if g !in warnings {
        warnings := warnings[g := map[]];
      }
      var users: map<UserId, seq<Warnings.Warning>> := warnings[g];
      if u !in users {
        users := users[u := []];
        warnings := warnings[g := users];
      }
      var w := Warnings.Warning(reason, moderator, timestamp);
      assert users[u] == history;
      users := users[u := users[u] + [w]];
      assert users == guildBefore[u := history + [w]];
      warnings := warnings[g := users];
      total := |warnings[g][u]|;
    }

    /** `giveaway_start`: refuse while a giveaway is active, otherwise install a fresh record. */
    method StartGiveaway(g: GuildId, msg: MessageId, minInvites: int := 0, role: Option<RoleId> := None)
      returns (reply: Giveaways.StartReply)
      requires Valid()
      modifies this`giveaways
      ensures Valid()
      ensures Giveaways.Step(reply, giveaways) == Giveaways.Start(old(giveaways), g, minInvites, role, msg)
    {
      if g in giveaways && giveaways[g].active {
        return Giveaways.AlreadyActive;
      }
      giveaways := giveaways[g := Giveaways.Giveaway(true, minInvites, role, [], msg)];
      reply := Giveaways.Started;
    }

    /**
     * `join_button`: the user's invite count is read from the ledger (0 when absent);
     * the guild's roles and the user's roles are what the platform reports.
     */
    method JoinGiveaway(g: GuildId, u: UserId, guildRoles: set<RoleId>, userRoles: set<RoleId>)
      returns (reply: Giveaways.JoinReply)
      requires Valid()
      modifies this`giveaways
      ensures Valid()
      ensures Giveaways.Step(reply, giveaways)
        == Giveaways.Join(old(giveaways), g, u, GuildCount(invites, g, u), guildRoles, userRoles)
    {
      if g !in giveaways || !giveaways[g].active {
        return Giveaways.NotActive;
      }
      var giveaway := giveaways[g];
      if u in giveaway.participants {
        return Giveaways.AlreadyJoined;
      }
      var userInvites := GuildCount(invites, g, u);
      if userInvites < giveaway.minInvites {
        return Giveaways.TooFewInvites(giveaway.minInvites, userInvites);
      }
      if giveaway.requiredRole.Some? {
        var role := giveaway.requiredRole.value;
        if role != 0 && role in guildRoles && role !in userRoles {
          return Giveaways.MissingRole(role);
        }
      }
      Giveaways.JoinKeepsValid(giveaways, g, u, userInvites, guildRoles, userRoles);
      giveaways := giveaways[g := giveaway.(participants := giveaway.participants + [u])];
      reply := Giveaways.Joined;
    }

    /** `end_giveaway`: draw a winner, if anyone joined, and close the giveaway. */
    method EndGiveaway(g: GuildId, draw: nat) returns (reply: Giveaways.EndReply)
      requires Valid()
      modifies this`giveaways
      ensures Valid()
      ensures Giveaways.Step(reply, giveaways) == Giveaways.End(old(giveaways), g, draw)
    {
      if g !in giveaways || !giveaways[g].active {
        return Giveaways.NothingToEnd;
      }
      var participants := giveaways[g].participants;
      if participants == [] {
        reply := Giveaways.NoParticipants;
      } else {
        reply := Giveaways.Winner(Giveaways.Draw(participants, draw));
      }
      Giveaways.EndKeepsValid(giveaways, g, draw);
      giveaways := giveaways[g := giveaways[g].(active := false)];
    }

    /** The end scheduled by `giveaway_start` for the giveaway announced in message `msg`. */
    method GiveawayTimerExpired(g: GuildId, msg: MessageId, draw: nat) returns (reply: Giveaways.EndReply)
      requires Valid()
      modifies this`giveaways
      ensures Valid()
      ensures Giveaways.Step(reply, giveaways) == Giveaways.TimerExpired(old(giveaways), g, msg, draw)
    {
      if g in giveaways && giveaways[g].messageId == msg {
        reply := EndGiveaway(g, draw);
      } else {
        reply := Giveaways.NothingToEnd;
      }
    }
  }
}
