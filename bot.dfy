/**
 * The bot's mutable state (bot.js:16-17) and the `/start` handler's update of it
 * (bot.js:120-172), step by step as the handler performs it. Each method is proved
 * against the value model of module Referrals.
 */
module Bot {
  import opened Wrappers
  import opened Decimal
  import opened Referrals

  class ReferralBot {
    /** `const users = new Map()` */
    var users: map<Key, UserRecord>
    /** `const referralRecords = new Map()`; every stored value is `true`. */
    var referralRecords: set<string>

    /** Both maps are empty when the process starts. */
    constructor()
      ensures State() == Empty
      ensures Inv()
    {
      users := map[];
      referralRecords := {};
      EmptyValid();
    }

    function State(): Registry
      reads this
    {
      Registry(users, referralRecords)
    }

    ghost predicate Inv()
      reads this
    {
      Valid(State())
    }

    /**
     * The handler as registered with `bot.start`, on a bot whose registry satisfies the
     * invariant, which it keeps.
     */
    method OnStart(ev: StartEvent, lookup: Lookup) returns (outcome: StartOutcome)
      requires Inv()
      modifies this
      ensures Inv()
      ensures StartResult(State(), outcome) == Start(old(State()), ev, lookup)
    {
      ghost var before := State();
      outcome := HandleStart(ev, lookup);
      StartPreservesValid(before, ev, lookup);
    }

    /**
     * The `bot.start` handler up to the menu reply. The `sendMessage` to the referrer
     * (bot.js:156) and `logNewUser` (bot.js:167) are returned as intents, in call order.
     */
    method HandleStart(ev: StartEvent, lookup: Lookup) returns (outcome: StartOutcome)
      modifies this
      ensures StartResult(State(), outcome) == Start(old(State()), ev, lookup)
    {
      var userId := ev.from.id;
      var referrerId := ev.payload;
      if referrerId != "" && referrerId == IntToString(userId) {
        return SelfReferralRejected;
      }
      if NumKey(userId) !in users {
        var userData := UserRecord(
          userId,
          ev.from.username,
          ev.from.firstName,
          ev.from.lastName.GetOr(""),
          if referrerId != "" then Some(referrerId) else None,
          ev.now,
          []);
        users := users[NumKey(userId) := userData];
        var intents: seq<Intent> := [];
        var pair := PairKey(referrerId, userId);
        if referrerId != "" && pair !in referralRecords {
          referralRecords := referralRecords + {pair};
          var key := ReferrerKey(referrerId, lookup);
          if key in users {
            var referrerData := users[key];
            users := users[key := referrerData.(referrals := referrerData.referrals + [userId])];
          }
          intents := intents + [NotifyReferrer(referrerId)];
        }
        intents := intents + [LogNewUser(referrerId)];
        var count := ReferralCountOf(userId);
        outcome := Registered(intents, count);
      } else {
        var count := ReferralCountOf(userId);
        outcome := Returning(count);
      }
    }

    /**
     * `users.get(userId)?.referrals?.length || 0` (bot.js:172, 197, 223, 251): the form of
     * `ReferralCount` that reads the `users` field.
     */
    method ReferralCountOf(userId: int) returns (count: nat)
      ensures count == ReferralCount(users, userId)
    {
      if NumKey(userId) in users {
        count := |users[NumKey(userId)].referrals|;
      } else {
        count := 0;
      }
    }
  }
}
