/**
 * The invite ledger `invites_db`: guild -> (inviter -> number of members invited).
 * Each guild's inner dictionary is a Python dict, so it keeps insertion order; it is
 * modelled as a sequence of entries with pairwise distinct users, in that order.
 */
module Ledger {
  import opened Common

  datatype Entry = Entry(user: UserId, count: int)
  type Ledger = seq<Entry>
  type InvitesDb = map<GuildId, Ledger>

  /** The keys of a dict are distinct. */
  predicate UniqueUsers(l: Ledger) {
    forall i, j :: 0 <= i < j < |l| ==> l[i].user != l[j].user
  }

  predicate ValidDb(db: InvitesDb) {
    forall g :: g in db ==> UniqueUsers(db[g])
  }

  /** The keys of the dict. */
  function Users(l: Ledger): set<UserId> {
    if l == [] then {} else {l[0].user} + Users(l[1..])
  }

  /** `ledger.get(user, 0)` */
  function Count(l: Ledger, u: UserId): int {
    if l == [] then 0
    else if l[0].user == u then l[0].count
    else Count(l[1..], u)
  }

  /**
   * `if u not in ledger: ledger[u] = 0` then `ledger[u] += 1`: an existing key keeps
   * its place, a new key is added at the end.
   */
  function Credit(l: Ledger, u: UserId): Ledger {
    if l == [] then [Entry(u, 0 + 1)]
    else if l[0].user == u then [l[0].(count := l[0].count + 1)] + l[1..]
    else [l[0]] + Credit(l[1..], u)
  }

  /** `invites_db.get(guild, {}).get(user, 0)` */
  function GuildCount(db: InvitesDb, g: GuildId, u: UserId): int {
    if g in db then Count(db[g], u) else 0
  }

  /** Credit one invite to `u` in guild `g`, creating the guild's dict when missing. */
  function CreditGuild(db: InvitesDb, g: GuildId, u: UserId): InvitesDb {
    db[g := Credit(if g in db then db[g] else [], u)]
  }

  /** Crediting `u` adds exactly one to `u`'s count and leaves every other count alone. */
  lemma {:induction false} CreditCounts(l: Ledger, u: UserId, v: UserId)
    ensures Count(Credit(l, u), v) == Count(l, v) + (if u == v then 1 else 0)
  {
    if l != [] && l[0].user != u {
      CreditCounts(l[1..], u, v);
      assert Credit(l, u)[1..] == Credit(l[1..], u);
    }
  }

  /** A user is a key exactly when some entry is theirs. */
  lemma {:induction false} UsersHaveEntries(l: Ledger, u: UserId)
    ensures u in Users(l) <==> exists i :: 0 <= i < |l| && l[i].user == u
  {
    if l != [] {
      UsersHaveEntries(l[1..], u);
      if u in Users(l[1..]) {
        var i :| 0 <= i < |l| - 1 && l[1..][i].user == u;
        assert l[i + 1].user == u;
      }
      if exists i :: 0 <= i < |l| && l[i].user == u {
        var i :| 0 <= i < |l| && l[i].user == u;
        if i > 0 {
          assert l[1..][i - 1].user == u;
        }
      }
    }
  }

  /**
   * Crediting keeps every existing entry in its position, adds `u` to the keys, and
   * appends `Entry(u, 1)` exactly when `u` had no entry.
   */
  lemma {:induction false} CreditShape(l: Ledger, u: UserId)
    ensures |Credit(l, u)| == |l| + (if u in Users(l) then 0 else 1)
    ensures forall i :: 0 <= i < |l| ==> Credit(l, u)[i].user == l[i].user
    ensures u !in Users(l) ==> Credit(l, u)[|l|] == Entry(u, 1)
    ensures Users(Credit(l, u)) == Users(l) + {u}
  {
    if l == [] {
    } else if l[0].user == u {
      assert Credit(l, u)[1..] == l[1..];
    } else {
      CreditShape(l[1..], u);
      assert Credit(l, u)[1..] == Credit(l[1..], u);
    }
  }

  /** Crediting keeps the keys of the dict distinct. */
  lemma CreditKeepsUnique(l: Ledger, u: UserId)
    requires UniqueUsers(l)
    ensures UniqueUsers(Credit(l, u))
    ensures Users(Credit(l, u)) == Users(l) + {u}
  {
    CreditShape(l, u);
    UsersHaveEntries(l, u);
    var c := Credit(l, u);
    forall i, j | 0 <= i < j < |c|
      ensures c[i].user != c[j].user
    {
      if j == |l| {
        assert c[i].user == l[i].user;
      }
    }
  }

  /** In a ledger with distinct users, each entry's count is what `get` reports for its user. */
  lemma {:induction false} CountOfEntry(l: Ledger, i: nat)
    requires UniqueUsers(l) && i < |l|
    ensures Count(l, l[i].user) == l[i].count
  {
    if i > 0 {
      CountOfEntry(l[1..], i - 1);
    }
  }

  /** Crediting inside one guild changes only that guild's count for that user, by one. */
  lemma CreditGuildCounts(db: InvitesDb, g: GuildId, u: UserId, g': GuildId, v: UserId)
    ensures GuildCount(CreditGuild(db, g, u), g', v)
         == GuildCount(db, g', v) + (if g' == g && v == u then 1 else 0)
  {
    if g' == g {
      CreditCounts(if g in db then db[g] else [], u, v);
    }
  }

  lemma CreditGuildKeepsValid(db: InvitesDb, g: GuildId, u: UserId)
    requires ValidDb(db)
    ensures ValidDb(CreditGuild(db, g, u))
  {
    CreditKeepsUnique(if g in db then db[g] else [], u);
  }
}
