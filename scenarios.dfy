/**
 * Short runs of the bot's handlers, checked statically against their contracts:
 * the invite threshold of a giveaway, closing an empty giveaway twice, a draw between
 * two participants, the role gate, a timer ending its own giveaway, and two warnings
 * for one user.
 */
module Scenarios {
  import opened Common
  import opened Ledger
  import opened InviteTracking
  import Giveaways
  import Warnings
  import Bot

  /** A member below the invite threshold is refused, and admitted once an invite of theirs is used. */
  method InviteThreshold() {
    var bot := new Bot.DiscordBot(map[1 := [Entry(7, 1)]], map[], map[]);
    bot.CacheGuildInvites([(1, Some([Invite("abc", 3, Some(7))]))]);
    var started := bot.StartGiveaway(1, 100, 2);
    assert started == Giveaways.Started;
    var first := bot.JoinGiveaway(1, 7, {}, {});
    assert first == Giveaways.TooFewInvites(2, 1);
    var credited := bot.OnMemberJoin(1, Some([Invite("abc", 4, Some(7))]));
    assert credited == Credited(7);
    assert GuildCount(bot.invites, 1, 7) == 2;
    var second := bot.JoinGiveaway(1, 7, {}, {});
    assert second == Giveaways.Joined;
    assert bot.giveaways[1].participants == [7];
  }

  /** Ending a giveaway nobody joined reports no participants; ending it again does nothing. */
  method EmptyGiveawayEndsOnce() {
    var bot := new Bot.DiscordBot(map[], map[], map[]);
    var started := bot.StartGiveaway(2, 200);
    var first := bot.EndGiveaway(2, 0);
    assert first == Giveaways.NoParticipants;
    assert !bot.giveaways[2].active;
    var second := bot.EndGiveaway(2, 5);
    assert second == Giveaways.NothingToEnd;
  }

  /** With two participants the winner is one of them, whatever the draw. */
  method TwoParticipants(draw: nat) {
    var bot := new Bot.DiscordBot(map[], map[], map[]);
    var started := bot.StartGiveaway(3, 300);
    var a := bot.JoinGiveaway(3, 10, {}, {});
    var b := bot.JoinGiveaway(3, 11, {}, {});
    assert bot.giveaways[3].participants == [10, 11];
    var ended := bot.EndGiveaway(3, draw);
    assert ended == Giveaways.Winner(10) || ended == Giveaways.Winner(11);
  }

  /** A member without the required role is refused, and admitted once they hold it. */
  method RoleGate() {
    var bot := new Bot.DiscordBot(map[], map[], map[]);
    var started := bot.StartGiveaway(4, 400, role := Some(40));
    var refused := bot.JoinGiveaway(4, 9, {40}, {});
    assert refused == Giveaways.MissingRole(40);
    var admitted := bot.JoinGiveaway(4, 9, {40}, {40});
    assert admitted == Giveaways.Joined;
  }

  /** The timer of a giveaway closes it; a second timer for an older message does nothing. */
  method TimerEndsGiveaway() {
    var bot := new Bot.DiscordBot(map[], map[], map[]);
    var started := bot.StartGiveaway(6, 600);
    var joined := bot.JoinGiveaway(6, 12, {}, {});
    var stale := bot.GiveawayTimerExpired(6, 599, 3);
    assert stale == Giveaways.NothingToEnd;
    assert bot.giveaways[6].active;
    var ended := bot.GiveawayTimerExpired(6, 600, 3);
    assert ended == Giveaways.Winner(12);
    assert !bot.giveaways[6].active;
  }

  /** Two warnings for the same user are counted one after the other; the first uses the default reason. */
  method WarnTwice() {
    var bot := new Bot.DiscordBot(map[], map[], map[]);
    var first := bot.Warn(5, 8, 1, "2024-01-01T00:00:00");
    assert first == 1;
    var second := bot.Warn(5, 8, 1, "2024-01-02T00:00:00", "spam");
    assert second == 2;
    assert Warnings.History(bot.warnings, 5, 8)[0].reason == Warnings.DefaultReason;
  }
}
