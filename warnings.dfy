/**
 * The warning log `warnings_db`: guild -> user -> the list of warnings given to that
 * user, oldest first.
 */
module Warnings {
  import opened Common

  const DefaultReason := "No reason provided"

  /** One warning record; the timestamp is the clock's ISO text, supplied by the caller. */
  datatype Warning = Warning(reason: string, moderator: UserId, timestamp: string)

  type Db = map<GuildId, map<UserId, seq<Warning>>>

  /** The warnings of `u` in `g`, empty when either key is missing. */
  function History(db: Db, g: GuildId, u: UserId): seq<Warning> {
    if g in db && u in db[g] then db[g][u] else []
  }

  /**
   * `warn`: create the guild's dict and the user's list when missing, then append the
   * new warning to the user's list.
   */
  function AddWarning(db: Db, g: GuildId, u: UserId, w: Warning): Db {
    var users := if g in db then db[g] else map[];
    db[g := users[u := History(db, g, u) + [w]]]
  }

  /**
   * Warning `u` in `g` makes exactly that list one longer, with `w` at its end, and
   * leaves every other list as it was.
   */
  lemma AddWarningAppends(db: Db, g: GuildId, u: UserId, w: Warning, g': GuildId, u': UserId)
    ensures History(AddWarning(db, g, u, w), g', u')
      == if g' == g && u' == u then History(db, g, u) + [w] else History(db, g', u')
    ensures |History(AddWarning(db, g, u, w), g, u)| == |History(db, g, u)| + 1
  {
  }

  /**
   * The guild's dict and the user's list exist afterwards; no other guild or user gains
   * or loses an entry.
   */
  lemma AddWarningKeys(db: Db, g: GuildId, u: UserId, w: Warning)
    ensures AddWarning(db, g, u, w).Keys == db.Keys + {g}
    ensures AddWarning(db, g, u, w)[g].Keys == (if g in db then db[g].Keys else {}) + {u}
    ensures forall g' :: g' in db && g' != g ==> AddWarning(db, g, u, w)[g'] == db[g']
  {
  }

  /** Warnings only accumulate: each one given stays, in order, at the front of the list. */
  lemma {:induction false} WarningsAccumulate(db: Db, g: GuildId, u: UserId, ws: seq<Warning>)
    ensures History(AddAll(db, g, u, ws), g, u) == History(db, g, u) + ws
    decreases |ws|
  {
    if ws != [] {
      var last := ws[|ws| - 1];
      var front := ws[..|ws| - 1];
      WarningsAccumulate(db, g, u, front);
      AddWarningAppends(AddAll(db, g, u, front), g, u, last, g, u);
      assert front + [last] == ws;
    }
  }

  /** Giving `ws` one after another to the same user. */
  function AddAll(db: Db, g: GuildId, u: UserId, ws: seq<Warning>): Db
    decreases |ws|
  {
    if ws == [] then db
    else AddWarning(AddAll(db, g, u, ws[..|ws| - 1]), g, u, ws[|ws| - 1])
  }
}
