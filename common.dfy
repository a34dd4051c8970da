/** Identifiers and small wrappers shared by every part of the bot model. */
module Common {

  /** Discord snowflakes; the source turns them into strings for dictionary keys, consistently. */
  type GuildId = nat
  type UserId = nat
  type RoleId = nat
  type MessageId = nat

  datatype Option<+T> = None | Some(value: T)

  /** No element occurs twice. */
  predicate Distinct<T(==)>(s: seq<T>) {
    forall i, j :: 0 <= i < j < |s| ==> s[i] != s[j]
  }
}
