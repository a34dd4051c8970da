# A verified model of a Discord moderation bot

The bot (`main.py`) keeps four in-memory stores on its `DiscordBot` object. Its
slash commands and event handlers read and update them:

- `invites_db`: per guild, an inviter's count of members invited. It is an
  insertion-ordered dict.
- `giveaway_db`: per guild, one giveaway record. The record holds an active flag,
  the minimum invite count, an optional required role, the participant list and the
  announcement's message id.
- `warnings_db`: per guild and user, the list of warnings given.
- `invite_cache`: per guild, a snapshot `code -> uses` of the guild's invites.

This project models the logic underneath the platform calls:

- the giveaway state machine (`giveaway_start`, the join button, `end_giveaway`);
- working out who invited a new member by diffing invite snapshots (`on_member_join`,
  with the cache filled in `on_ready`);
- the duration check of `mute`, including Python's `int()` on the amount, and the
  amount bound of `purge`;
- the warning log of `warn`;
- the `topinvites` leaderboard.

Layout:

- `common.dfy`: identifiers and `Option`.
- `ledger.dfy`: the invite ledger and crediting one invite.
- `invite_tracking.dfy`: snapshots, the join-time diff and the startup cache fill.
- `giveaways.dfy`: the giveaway steps as functions from the old store to a reply and
  the new store, their properties, and the two findings below.
- `moderation.dfy`: `int()`, the mute duration and the purge bound.
- `leaderboard.dfy`: the stable descending sort and the top-ten cut.
- `warnings.dfy`: the warning log.
- `bot.dfy`: the class `DiscordBot`. Its fields are the four stores and its methods
  update them in place. Each method is proved to produce exactly the state that the
  matching step function describes, and to keep the stores' invariants (distinct
  inviters per guild, distinct participants per giveaway).
- `scenarios.dfy`: short sequences of calls to the class's methods, verified against
  their contracts.

Identifiers are natural numbers. The source turns ids into strings for the JSON
stores, and that does not change any comparison. Python dicts keep insertion order.
That order matters only for the leaderboard's ties, so the per-guild ledger is a
sequence of entries with distinct users. The other stores are maps.

## Model

| member | source | states |
|---|---|---|
| Bot.DiscordBot.constructor | main.py:75-80 | the three stores are as loaded and the invite cache is empty |
| Bot.DiscordBot.CacheGuildInvites | main.py:100-105 | the cache becomes `CacheOnReady` of the old cache and the per-guild fetch results; a guild whose fetch raised is skipped |
| InviteTracking.CacheOnReady | main.py:100-105 | the cache after visiting the guilds in order: each fetched guild gets the snapshot of its invites, and a guild whose fetch raised keeps its entry |
| InviteTracking.CacheOnReadyFills | main.py:100-105 | each guild whose invites were fetched is cached with their snapshot; every other guild keeps its old entry, or still has none |
| InviteTracking.SnapshotOf | main.py:186 | the snapshot's keys are exactly the codes of the invite list |
| InviteTracking.SnapshotValue | main.py:186 | the value stored for a code is the use count of its last occurrence in the list |
| InviteTracking.FirstUsed | main.py:168-170 | the result is the first position whose code was cached and whose uses grew; None means no invite in the list was used |
| InviteTracking.TrackJoin | main.py:164-186 | the invite-tracking part of a join: a failed fetch or a first used invite without an inviter changes nothing; otherwise the first used invite's inviter is credited, if there is one, and the guild's cache entry becomes the fresh snapshot |
| Bot.DiscordBot.OnMemberJoin | main.py:164-186 | the loop over the fresh invites leaves the reply, the ledger and the cache exactly as `TrackJoin` says, and keeps inviters distinct per guild |
| InviteTracking.TrackJoinCreditsAtMostOne | main.py:168-183 | one join changes at most one count in the whole ledger: the credited inviter's, in the joining guild, by exactly one |
| InviteTracking.TrackJoinCreditsFirstUsedCode | main.py:168-172 | a credited inviter owns the first fresh invite that was cached and whose uses grew; no earlier invite qualifies, and nobody is credited without a cached snapshot |
| InviteTracking.TrackJoinCreditsFirstUsedInviter | main.py:168-183 | conversely, when the first cached invite whose uses grew has an inviter, that inviter is credited, whatever comes later in the list |
| InviteTracking.TrackJoinReplies | main.py:164-188 | the reply is NoneUsed exactly when the invites were fetched and no cached code gained a use; it is Failed exactly when the fetch raised or the first used invite has no inviter |
| InviteTracking.TrackJoinRefreshesCache | main.py:164-188 | unless an exception was caught, the guild's cache entry becomes the fresh snapshot and other guilds' entries stay; after a caught exception nothing changes |
| InviteTracking.TrackJoinLedger | main.py:168-181 | the ledger after a join is the old one with the credited inviter credited in the joining guild, and otherwise unchanged: no guild gains a ledger and no ledger gains a key except by a credit; existing entries keep their positions and a new inviter is appended with count 1 |
| InviteTracking.TrackJoinKeepsValid | main.py:175-181 | crediting keeps every guild's inviters distinct |
| Ledger.Count | main.py:317 | `ledger.get(user, 0)`: the count of the user's entry, 0 when there is none |
| Ledger.GuildCount | main.py:474 | `invites_db.get(guild, {}).get(user, 0)` |
| Ledger.Credit | main.py:178-181 | one invite credited: an existing inviter's count goes up in place; a new inviter is added at the end with 0 + 1 |
| Ledger.CreditGuild | main.py:175-181 | crediting in one guild, creating the guild's dict when it is missing |
| Ledger.CreditCounts | main.py:175-181 | crediting adds one to the credited user's count (starting from 0 when absent) and leaves every other count unchanged |
| Ledger.CreditShape | main.py:175-181 | existing entries keep their positions and users; a new inviter is appended at the end with count 1; the key set gains the credited user |
| Ledger.CreditKeepsUnique | main.py:175-181 | keys stay distinct, and the key set is the old one plus the credited user |
| Ledger.UsersHaveEntries | main.py:178 | a user is a key of the ledger exactly when some entry is theirs |
| Ledger.CountOfEntry | main.py:317 | with distinct keys, `.get(user, 0)` returns that user's entry's count |
| Ledger.CreditGuildCounts | main.py:175-181 | crediting in one guild changes only that guild's count for that user, by one |
| Ledger.CreditGuildKeepsValid | main.py:175-181 | crediting in any guild, even a new one, keeps all ledgers' keys distinct |
| Bot.DiscordBot.StartGiveaway | main.py:372-394 | the reply and the new store are exactly `Giveaways.Start`, with the minimum invites defaulting to 0 and no required role; participants stay distinct |
| Giveaways.Start | main.py:378-394 | the start step: refused while the guild's giveaway is active; otherwise a fresh active record with the given minimum, role and message and no participants replaces the guild's record |
| Giveaways.StartGuarded | main.py:380-394 | start is refused exactly when the guild's giveaway is active, and then nothing changes; otherwise the guild gets a fresh active record with no participants, replacing any ended record, and other guilds are untouched |
| Bot.DiscordBot.JoinGiveaway | main.py:457-495 | the reply and the new store are exactly `Giveaways.Join`, with the user's invite count read from the ledger (0 when absent) |
| Giveaways.Verdict | main.py:461-487 | the join checks in the source's order: not active, already participating, too few invites, then missing role; the role gate passes when no role is required, the role id is 0 or the role no longer exists |
| Giveaways.Join | main.py:461-495 | the join step: appends the user when the verdict admits them, and changes nothing otherwise |
| Giveaways.JoinAppendsOnce | main.py:461-495 | a join is admitted exactly when the giveaway is active, the user is not in it, they have at least the minimum invites and the role gate passes; an admitted join appends the user once and changes nothing else; a refused join changes nothing |
| Giveaways.JoinRefusalReasons | main.py:461-490 | a refusal reports the first failing check in order: NotActive exactly when not active, AlreadyJoined exactly when active and already in, TooFewInvites (with the needed and actual counts) exactly when active, new and below the minimum, MissingRole exactly when all earlier checks pass and the role gate fails |
| Giveaways.InactiveGiveawayIsFrozen | main.py:463-465 | a missing or ended giveaway refuses every join and does not change |
| Giveaways.RejoinRejected | main.py:468-470 | after joining, every later attempt by the same user is refused as already participating |
| Giveaways.JoinMonotoneInInvites | main.py:473-481 | more invites never turn an admission into a refusal |
| Giveaways.StartKeepsValid | main.py:386-394 | a start keeps every participant list free of duplicates |
| Giveaways.JoinKeepsValid | main.py:461-495 | a join keeps every participant list free of duplicates, since a user is appended only when absent |
| Giveaways.EndKeepsValid | main.py:425-449 | an end keeps every participant list free of duplicates |
| Giveaways.TimerKeepsValid | main.py:412-415 | the timer keeps every participant list free of duplicates |
| Giveaways.Draw | main.py:438 | the winner is one of the participants |
| Giveaways.EveryParticipantCanWin | main.py:438 | every participant is the winner for some draw |
| Bot.DiscordBot.EndGiveaway | main.py:425-449 | the reply and the new store are exactly `Giveaways.End` |
| Giveaways.End | main.py:425-449 | the end step as corrected: nothing unless the guild's giveaway is active; otherwise a winner is drawn when there are participants and the record is marked inactive |
| Giveaways.EndCloses | main.py:425-449 | a missing or inactive giveaway is left alone; an active one is closed and nothing else changes; there is no winner exactly when there were no participants, and a winner is a participant |
| Giveaways.EndIdempotent | main.py:429-430 | ending a second time draws nothing and changes nothing |
| Bot.DiscordBot.GiveawayTimerExpired | main.py:412-415 | the scheduled end is exactly `Giveaways.TimerExpired`, the corrected timer |
| Giveaways.TimerExpired | main.py:412-415 | the scheduled end as corrected: ends the guild's giveaway only if it is still the one announced in the timer's message |
| Giveaways.TimerOnlyEndsItsOwnGiveaway | main.py:412-415 | a timer set for an earlier giveaway leaves the guild's current one alone |
| Giveaways.TimerEndsItsOwnGiveaway | main.py:412-415 | a timer set for the guild's active giveaway closes it as `end_giveaway` does: the store changes only by clearing the active flag, there is no winner exactly when nobody joined, and a winner is a participant |
| Giveaways.TimerExpiredAsWritten | main.py:412-415 | the scheduled end as written: ends whatever giveaway the guild has when the sleep is over |
| Giveaways.StaleTimerEndsNewerGiveaway | main.py:412-415 | start, end by hand, start again: the first timer as written ends the second giveaway, and the corrected timer does not |
| Giveaways.EndAsWritten | main.py:436-448 | the end step as written: when the drawn winner is not a member of the guild any more, the call raises and the record stays as it was |
| Giveaways.MissingWinnerKeepsGiveawayOpen | main.py:438-448 | as written, when the drawn winner has left the guild, ending raises and the giveaway stays active |
| Moderation.ParseInt | main.py:263 | `int()` on a string: surrounding whitespace stripped, an optional sign, digits with single underscores between them; None where Python raises |
| Moderation.DecimalDigits | main.py:263 | `str(n)` is a well-formed digit run with no surrounding whitespace, and it spells `n` |
| Moderation.ParseUnsigned | main.py:263 | `int()` of a digit run (single underscores allowed) is its value |
| Moderation.ParseSigned | main.py:263 | `int()` of a sign followed by a digit run is the signed value |
| Moderation.ParseDecimal | main.py:263 | `int(str(n)) == n` for every natural `n` |
| Moderation.MuteDuration | main.py:259-268 | an invalid format exactly when the string is empty or everything but its last character is not an integer to `int()`; otherwise the seconds are that integer times the unit's seconds, and the result is a timeout between 60 seconds and 28 days or a refusal outside that interval |
| Moderation.UnitSeconds | main.py:260-264 | `{'m': 60, 'h': 3600, 'd': 86400}.get(unit, 60)` |
| Moderation.CheckSeconds | main.py:266-268 | refused as out of range below 60 or above 2419200 seconds, a timeout otherwise |
| Moderation.MuteSplitsUnit | main.py:262-264 | the last character is the unit, and the rest goes through `int()` and is multiplied by the unit's seconds |
| Moderation.MuteWrittenDuration | main.py:259-268 | `<digits><unit>` is a timeout of digits × unit seconds exactly when that lies in [60, 2419200], and is refused as out of range otherwise |
| Moderation.MuteNegativeAmount | main.py:263-267 | an amount that `int()` reads as zero or negative is refused as out of range, whatever the unit |
| Moderation.MuteNegativeDuration | main.py:263-267 | `-<digits><unit>` is refused as out of range |
| Moderation.MuteBareNumber | main.py:260-264 | a bare number reads its last digit as an unknown unit worth a minute: "25" is the same as "2m" |
| Moderation.ParseSmall | main.py:263 | `int()` of a one- or two-digit numeral is its value |
| Moderation.MuteExampleUnits | main.py:260-264 | "10m", "1h" and "2d" are 600, 3600 and 172800 seconds |
| Moderation.MuteExampleLongest | main.py:266 | "28d" is the longest timeout and "29d" is refused |
| Moderation.MuteExampleNonPositive | main.py:266 | "0m" and "-5m" are refused |
| Moderation.MuteExampleQuirks | main.py:260-274 | "30s" is 30 minutes, "10" is one minute, and "m" and "" are invalid formats |
| Moderation.MuteExampleWhitespace | main.py:263 | " 5m" is five minutes, since `int()` ignores the space; an information separator (U+001C) before the amount makes it an invalid format |
| Moderation.PurgeLimit | main.py:212-214 | an amount is accepted exactly when it lies in 1..100, and then exactly that many messages are asked for |
| Bot.DiscordBot.Warn | main.py:279-303 | the log becomes `AddWarning` of the old log, with the reason "No reason provided" when none is given; the reported total is the new list's length, one more than before |
| Warnings.AddWarning | main.py:284-296 | the warn step: create the guild's dict and the user's list when missing, then append the warning |
| Warnings.AddWarningAppends | main.py:284-299 | the warned user's list grows by exactly the new warning at its end, and every other user's list in every guild is unchanged |
| Warnings.AddWarningKeys | main.py:284-288 | the guild's dict and the user's list exist afterwards, and no other guild or user gains or loses an entry |
| Warnings.WarningsAccumulate | main.py:296 | repeated warnings accumulate in the order given, after the earlier ones |
| Leaderboard.Insert | main.py:338-342 | inserting adds exactly the one entry: the result is a permutation of the input plus it |
| Leaderboard.InsertKeepsOrder | main.py:338-342 | inserting into a list with non-increasing counts keeps it non-increasing |
| Leaderboard.SortDescending | main.py:338-342 | the sorted ledger is a permutation of the ledger with non-increasing counts |
| Leaderboard.InsertWithCount | main.py:338-342 | an inserted entry goes in front of the entries it ties with, and the order among the others is kept |
| Leaderboard.SortIsStable | main.py:338-342 | the sort is stable: inviters with equal counts appear in ledger order |
| Leaderboard.Take | main.py:342 | `[:10]` keeps min(10, n) entries, a prefix of the list |
| Leaderboard.TakeKeepsHighest | main.py:338-342 | nothing cut off a non-increasing list counts more than anything kept |
| Leaderboard.TopInvites | main.py:331-342 | None when the guild has no data or an empty dict; otherwise the first ten entries of the stably sorted ledger |
| Leaderboard.TopInvitesRanks | main.py:331-342 | refused exactly when the guild has no or empty data; otherwise min(10, n) ledger entries, non-increasing, with no omitted entry counting more than a shown one |

## Left out

- Everything that talks to the platform: interactions, embeds, sending messages,
  `guild.invites()`, `get_member`, `get_role`, kick, ban, timeout and the purge
  itself. Their results are parameters of the model. For example, `OnMemberJoin`
  receives the fetched invite list, or None when the call raised. `JoinGiveaway`
  receives the guild's and the user's role ids.
- The kick and ban commands, and the role-hierarchy checks of kick, ban and mute.
  These compare platform `Role` objects, whose ordering is not part of this model.
- Time: the `asyncio.sleep` before the automatic end of a giveaway, the end-time
  text, warning timestamps (a parameter) and the mute's `until`. The automatic end
  is the separate operation `GiveawayTimerExpired`.
- `random.choice`: the draw is a parameter, and the winner is the participant at
  `draw % |participants|`. Nothing is claimed about uniformity.
- JSON persistence (`Database.load`/`save`), the license check, `ping`, `help`,
  the auto-role assignment and the program's entry point.
- Concurrency between handlers. Every handler runs to completion before the next
  one starts. In particular, the record that `giveaway_start` writes before posting
  and the message id it writes after posting are one step, `Start`.
- `Bot.DiscordBot.StartGiveaway` does not model the channel or the end time in the
  record. Nothing else in the bot reads them.
- `Moderation.ParseInt` accepts only ASCII digits. Python's `int()` also accepts
  other Unicode decimal digits and refuses more than 4300 digits. Neither is
  modelled.
- `Moderation.MuteDuration` does not model the timeout call failing inside the
  `try`, which produces the same "invalid format" reply.
- `Bot.DiscordBot.GiveawayTimerExpired` and `Bot.DiscordBot.EndGiveaway` follow the
  corrected behaviour of the two findings below. `Giveaways.TimerExpiredAsWritten`
  and `Giveaways.EndAsWritten` model the code as written.

## Findings

| source | as written | input that shows it | evidently intended | confidence | as-written member | corrected member |
|---|---|---|---|---|---|---|
| main.py:412-415 | the timer of `giveaway_start` sleeps and then ends whatever giveaway the guild has by then | start a giveaway, end it by hand with `giveaway_end`, start another before the first duration elapses: the first timer ends the second giveaway early | a timer ends only the giveaway it was set for | not executed; high | Giveaways.StaleTimerEndsNewerGiveaway | Giveaways.TimerOnlyEndsItsOwnGiveaway |
| main.py:438-448 | `winner.mention` is read from `guild.get_member(...)`, which is None for a winner who has left the guild; the exception comes before `active = False` | a giveaway whose only participant left the guild: every end attempt raises, and the giveaway stays active for good | the giveaway is closed whatever happens to the announcement | not executed; medium | Giveaways.MissingWinnerKeepsGiveawayOpen | Giveaways.EndCloses |
