/**
 * Working out who invited a new member: the bot keeps, per guild, a snapshot
 * code -> uses of the guild's invites, and when a member joins it compares the
 * fresh invite list against that snapshot (main.py, `on_member_join`).
 */
module InviteTracking {
  import opened Common
  import opened Ledger

  /** One element of `guild.invites()`; `inviter` is absent for some invites (a vanity URL, for one). */
  datatype Invite = Invite(code: string, uses: int, inviter: Option<UserId>)

  type Snapshot = map<string, int>
  type Cache = map<GuildId, Snapshot>

  function Codes(invites: seq<Invite>): set<string> {
    set i | 0 <= i < |invites| :: invites[i].code
  }

  /**
   * `{invite.code: invite.uses for invite in invites}`: every code is a key, and when a
   * code occurs twice the later occurrence wins.
   */
  function SnapshotOf(invites: seq<Invite>): (snap: Snapshot)
    ensures snap.Keys == Codes(invites)
  {
    if invites == [] then map[]
    else
      var n := |invites| - 1;
      assert Codes(invites) == Codes(invites[..n]) + {invites[n].code} by {
        forall c | c in Codes(invites) ensures c in Codes(invites[..n]) + {invites[n].code} {
          var i :| 0 <= i < |invites| && invites[i].code == c;
          if i < n { assert invites[..n][i] == invites[i]; }
        }
        forall c | c in Codes(invites[..n]) ensures c in Codes(invites) {
          var i :| 0 <= i < n && invites[..n][i].code == c;
        }
      }
      SnapshotOf(invites[..n])[invites[n].code := invites[n].uses]
  }

  /** The value kept for a code is the uses of its last occurrence. */
  lemma {:induction false} SnapshotValue(invites: seq<Invite>, i: nat)
    requires i < |invites|
    requires forall j :: i < j < |invites| ==> invites[j].code != invites[i].code
    ensures SnapshotOf(invites)[invites[i].code] == invites[i].uses
  {
    var n := |invites| - 1;
    if i < n {
      SnapshotValue(invites[..n], i);
    }
  }

  /** The code was in the cached snapshot and its use count went up. */
  predicate Used(before: Snapshot, inv: Invite) {
    inv.code in before && inv.uses > before[inv.code]
  }

  /** Position of the first invite of `after` that was used, scanning in order. */
  function FirstUsed(before: Snapshot, after: seq<Invite>): (r: Option<nat>)
    ensures r.Some? ==> r.value < |after| && Used(before, after[r.value])
    ensures r.Some? ==> forall j :: 0 <= j < r.value ==> !Used(before, after[j])
    ensures r.None? ==> forall j :: 0 <= j < |after| ==> !Used(before, after[j])
  {
    if after == [] then None
    else if Used(before, after[0]) then Some(0)
    else match FirstUsed(before, after[1..])
      case None => None
      case Some(k) => Some(k + 1)
  }

  /** What a member join reports. */
  datatype Tracking =
    | Credited(inviter: UserId)   // one inviter's count went up
    | NoneUsed                    // no cached code gained a use
    | Failed                      // an exception was caught: nothing was updated

  datatype TrackState = TrackState(reply: Tracking, invites: InvitesDb, cache: Cache)

  /** `invite_cache.get(guild.id, {})` */
  function CachedBefore(cache: Cache, g: GuildId): Snapshot {
    if g in cache then cache[g] else map[]
  }

  /**
   * The invite-tracking half of a member join. `fetched` is the result of
   * `guild.invites()`, None when that call raised. When the first used invite has no
   * inviter, `invite.inviter.id` raises before anything is written, so neither the
   * ledger nor the cache changes.
   */
  function TrackJoin(invites: InvitesDb, cache: Cache, g: GuildId, fetched: Option<seq<Invite>>): TrackState {
    match fetched
    case None => TrackState(Failed, invites, cache)
    case Some(after) =>
      match FirstUsed(CachedBefore(cache, g), after)
      case None => TrackState(NoneUsed, invites, cache[g := SnapshotOf(after)])
      case Some(i) =>
        match after[i].inviter
        case None => TrackState(Failed, invites, cache)
        case Some(v) => TrackState(Credited(v), CreditGuild(invites, g, v), cache[g := SnapshotOf(after)])
  }

  /**
   * A join changes at most one count in the whole ledger, that of the reported
   * inviter in the joining guild, and by exactly one.
   */
  lemma TrackJoinCreditsAtMostOne(invites: InvitesDb, cache: Cache, g: GuildId,
                                  fetched: Option<seq<Invite>>, g': GuildId, v: UserId)
    ensures var s := TrackJoin(invites, cache, g, fetched);
      GuildCount(s.invites, g', v)
        == GuildCount(invites, g', v) + (if g' == g && s.reply == Credited(v) then 1 else 0)
  {
    var s := TrackJoin(invites, cache, g, fetched);
    if s.reply.Credited? {
      CreditGuildCounts(invites, g, s.reply.inviter, g', v);
    }
  }

  /**
   * A credited inviter owns the first invite of the fresh list whose code was cached
   * and whose uses grew; nobody is credited in a guild with no cached snapshot.
   */
  lemma TrackJoinCreditsFirstUsedCode(invites: InvitesDb, cache: Cache, g: GuildId,
                                      after: seq<Invite>, v: UserId)
    requires TrackJoin(invites, cache, g, Some(after)).reply == Credited(v)
    ensures g in cache
    ensures exists i ::
              && 0 <= i < |after| && after[i].inviter == Some(v)
              && Used(cache[g], after[i])
              && forall j :: 0 <= j < i ==> !Used(cache[g], after[j])
  {
    var i := FirstUsed(CachedBefore(cache, g), after).value;
    assert after[i].inviter == Some(v);
  }

  /**
   * The first cached invite whose uses grew decides the reply: its inviter is credited,
   * whatever comes after it in the list.
   */
  lemma TrackJoinCreditsFirstUsedInviter(invites: InvitesDb, cache: Cache, g: GuildId,
                                         after: seq<Invite>, i: nat, v: UserId)
    requires i < |after| && Used(CachedBefore(cache, g), after[i]) && after[i].inviter == Some(v)
    requires forall j :: 0 <= j < i ==> !Used(CachedBefore(cache, g), after[j])
    ensures TrackJoin(invites, cache, g, Some(after)).reply == Credited(v)
  {
    var k := FirstUsed(CachedBefore(cache, g), after).value;
    assert k == i;
  }

  /**
   * Which reply a join gets: NoneUsed exactly when the invites were fetched and none
   * of the cached codes gained a use; Failed exactly when the fetch raised or the first
   * used invite has no inviter; Credited otherwise.
   */
  lemma TrackJoinReplies(invites: InvitesDb, cache: Cache, g: GuildId, fetched: Option<seq<Invite>>)
    ensures var r := TrackJoin(invites, cache, g, fetched).reply;
      && (r == NoneUsed <==>
            fetched.Some? && forall j :: 0 <= j < |fetched.value| ==> !Used(CachedBefore(cache, g), fetched.value[j]))
      && (r == Failed <==>
            || fetched.None?
            || exists i :: && 0 <= i < |fetched.value|
                           && Used(CachedBefore(cache, g), fetched.value[i])
                           && fetched.value[i].inviter.None?
                           && forall j :: 0 <= j < i ==> !Used(CachedBefore(cache, g), fetched.value[j]))
  {
    if fetched.Some? {
      var before, after := CachedBefore(cache, g), fetched.value;
      match FirstUsed(before, after)
      case None =>
      case Some(k) =>
        forall i | 0 <= i < |after| && Used(before, after[i]) && forall j :: 0 <= j < i ==> !Used(before, after[j])
          ensures i == k
        {
        }
    }
  }

  /**
   * Unless an exception was caught, the cache afterwards holds exactly the fresh
   * snapshot for this guild and is unchanged for every other guild; after a caught
   * exception nothing has changed at all.
   */
  lemma TrackJoinRefreshesCache(invites: InvitesDb, cache: Cache, g: GuildId, fetched: Option<seq<Invite>>)
    ensures var s := TrackJoin(invites, cache, g, fetched);
      (s.reply == Failed ==> s.invites == invites && s.cache == cache) &&
      (s.reply != Failed ==> fetched.Some? && s.cache == cache[g := SnapshotOf(fetched.value)])
  {
  }

  /**
   * The ledger after a join is the old one with the credited inviter, if any, credited
   * in the joining guild, and nothing else. No guild gains a ledger and no ledger gains
   * a key except by a credit; the joining guild's existing entries keep their positions,
   * and a new inviter goes at the end.
   */
  lemma TrackJoinLedger(invites: InvitesDb, cache: Cache, g: GuildId, fetched: Option<seq<Invite>>)
    ensures var s := TrackJoin(invites, cache, g, fetched);
      && s.invites == (if s.reply.Credited? then CreditGuild(invites, g, s.reply.inviter) else invites)
      && s.invites.Keys == invites.Keys + (if s.reply.Credited? then {g} else {})
      && (forall h :: h in invites && h != g ==> s.invites[h] == invites[h])
      && (s.reply.Credited? ==>
            var l, v := (if g in invites then invites[g] else []), s.reply.inviter;
            && |s.invites[g]| == |l| + (if v in Users(l) then 0 else 1)
            && (forall i :: 0 <= i < |l| ==> s.invites[g][i].user == l[i].user)
            && (v !in Users(l) ==> s.invites[g][|l|] == Entry(v, 1))
            && Users(s.invites[g]) == Users(l) + {v})
  {
    var s := TrackJoin(invites, cache, g, fetched);
    if s.reply.Credited? {
      CreditShape(if g in invites then invites[g] else [], s.reply.inviter);
    }
  }

  /** The ledger keeps distinct keys per guild. */
  lemma TrackJoinKeepsValid(invites: InvitesDb, cache: Cache, g: GuildId, fetched: Option<seq<Invite>>)
    requires ValidDb(invites)
    ensures ValidDb(TrackJoin(invites, cache, g, fetched).invites)
  {
    var s := TrackJoin(invites, cache, g, fetched);
    if s.reply.Credited? {
      CreditGuildKeepsValid(invites, g, s.reply.inviter);
    }
  }

  // ---------------------------------------------------------------------------
  // Filling the cache at startup (`on_ready`)

  /**
   * `on_ready`: for each guild in turn, `guild.invites()` either yields a list, whose
   * snapshot becomes the guild's cache entry, or raises (None), and the guild is skipped.
   */
  function CacheOnReady(cache: Cache, fetches: seq<(GuildId, Option<seq<Invite>>)>): Cache
    decreases |fetches|
  {
    if fetches == [] then cache
    else
      var n := |fetches| - 1;
      var c := CacheOnReady(cache, fetches[..n]);
      match fetches[n].1
      case None => c
      case Some(after) => c[fetches[n].0 := SnapshotOf(after)]
  }

  /**
   * With each guild visited once, a guild whose invites could be fetched is cached with
   * their snapshot, and every other guild keeps the entry it had, or still has none.
   */
  lemma {:induction false} CacheOnReadyFills(cache: Cache, fetches: seq<(GuildId, Option<seq<Invite>>)>, g: GuildId)
    requires forall i, j :: 0 <= i < j < |fetches| ==> fetches[i].0 != fetches[j].0
    ensures forall i :: 0 <= i < |fetches| && fetches[i].0 == g && fetches[i].1.Some? ==>
      g in CacheOnReady(cache, fetches) && CacheOnReady(cache, fetches)[g] == SnapshotOf(fetches[i].1.value)
    ensures (forall i :: 0 <= i < |fetches| && fetches[i].0 == g ==> fetches[i].1.None?) ==>
      (g in CacheOnReady(cache, fetches) <==> g in cache) &&
      (g in cache ==> CacheOnReady(cache, fetches)[g] == cache[g])
    decreases |fetches|
  {
    if fetches != [] {
      var n := |fetches| - 1;
      CacheOnReadyFills(cache, fetches[..n], g);
      forall i | 0 <= i < n
        ensures fetches[..n][i] == fetches[i]
      {
      }
    }
  }
}
