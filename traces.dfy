/**
 * Sequences of `/start` updates. Node runs each handler's state update (bot.js:122-152)
 * to completion before its first `await`, so a run of the bot is the handler's state
 * transition applied to one update after another.
 */
module Traces {
  import opened Wrappers
  import opened Decimal
  import opened Referrals

  /** The registry after the handler has processed `events` in order. */
  function Run(st: Registry, events: seq<StartEvent>, lookup: Lookup): Registry
    decreases |events|
  {
    if |events| == 0 then st
    else Run(Start(st, events[0], lookup).state, events[1..], lookup)
  }

  lemma {:induction false} RunAppend(st: Registry, a: seq<StartEvent>, b: seq<StartEvent>, lookup: Lookup)
    ensures Run(st, a + b, lookup) == Run(Run(st, a, lookup), b, lookup)
    decreases |a|
  {
    if |a| > 0 {
      assert (a + b)[1..] == a[1..] + b;
      RunAppend(Start(st, a[0], lookup).state, a[1..], b, lookup);
    } else {
      assert a + b == b;
    }
  }

  /** Every reachable registry satisfies the invariant. */
  lemma {:induction false} RunPreservesValid(st: Registry, events: seq<StartEvent>, lookup: Lookup)
    requires Valid(st)
    ensures Valid(Run(st, events, lookup))
    decreases |events|
  {
    if |events| > 0 {
      StartPreservesValid(st, events[0], lookup);
      RunPreservesValid(Start(st, events[0], lookup).state, events[1..], lookup);
    }
  }

  lemma ExtendsTransitive(a: Registry, b: Registry, c: Registry)
    requires Extends(a, b) && Extends(b, c)
    ensures Extends(a, c)
  {
  }

  /** Over any run the maps only grow and stored records change only by appended referrals. */
  lemma {:induction false} RunExtends(st: Registry, events: seq<StartEvent>, lookup: Lookup)
    ensures Extends(st, Run(st, events, lookup))
    decreases |events|
  {
    if |events| > 0 {
      var st1 := Start(st, events[0], lookup).state;
      StartFrame(st, events[0], lookup);
      RunExtends(st1, events[1..], lookup);
      ExtendsTransitive(st, st1, Run(st1, events[1..], lookup));
    }
  }

  /** The update needs nothing from the registry: it is rejected, or its sender is registered. */
  predicate Settled(st: Registry, ev: StartEvent) {
    IsSelfReferral(ev) || NumKey(ev.from.id) in st.users
  }

  /** After a run, every update of the run is settled. */
  lemma {:induction false} RunSettles(st: Registry, events: seq<StartEvent>, lookup: Lookup)
    ensures forall i :: 0 <= i < |events| ==> Settled(Run(st, events, lookup), events[i])
    decreases |events|
  {
    if |events| > 0 {
      var st1 := Start(st, events[0], lookup).state;
      var rest := events[1..];
      RunSettles(st1, rest, lookup);
      RunExtends(st1, rest, lookup);
      forall i | 0 <= i < |events| ensures Settled(Run(st, events, lookup), events[i]) {
        if i > 0 {
          assert events[i] == rest[i - 1];
        }
      }
    }
  }

  /** Updates that are all settled change nothing. */
  lemma {:induction false} SettledRunIsIdentity(st: Registry, events: seq<StartEvent>, lookup: Lookup)
    requires forall i :: 0 <= i < |events| ==> Settled(st, events[i])
    ensures Run(st, events, lookup) == st
    decreases |events|
  {
    if |events| > 0 {
      assert Start(st, events[0], lookup).state == st;
      forall i | 0 <= i < |events[1..]| ensures Settled(st, events[1..][i]) {
        assert events[1..][i] == events[i + 1];
      }
      SettledRunIsIdentity(st, events[1..], lookup);
    }
  }

  /**
   * Replaying updates is harmless: running the same updates a second time changes
   * neither map, so no pair key and no referral is recorded twice.
   */
  lemma ReplayIsIdempotent(st: Registry, events: seq<StartEvent>, lookup: Lookup)
    ensures Run(st, events + events, lookup) == Run(st, events, lookup)
  {
    RunAppend(st, events, events, lookup);
    RunSettles(st, events, lookup);
    SettledRunIsIdentity(Run(st, events, lookup), events, lookup);
  }

  /** No registered user has any referral. */
  predicate NoCredits(st: Registry) {
    forall k :: k in st.users ==> st.users[k].referrals == []
  }

  /** As written (bot.js:149), no run ever credits anybody. */
  lemma {:induction false} AsWrittenNoCreditsEver(st: Registry, events: seq<StartEvent>)
    requires Valid(st) && NoCredits(st)
    ensures NoCredits(Run(st, events, ByRawPayload))
    decreases |events|
  {
    if |events| > 0 {
      AsWrittenNeverCredits(st, events[0]);
      StartPreservesValid(st, events[0], ByRawPayload);
      AsWrittenNoCreditsEver(Start(st, events[0], ByRawPayload).state, events[1..]);
    }
  }

  /** As written, every count read is 0, whatever happened since the bot started. */
  lemma AsWrittenCountsStayZero(events: seq<StartEvent>, r: int)
    ensures ReferralCount(Run(Empty, events, ByRawPayload).users, r) == 0
  {
    EmptyValid();
    AsWrittenNoCreditsEver(Empty, events);
  }

  /**
   * The scenario of bot.js:149 as written: `inviter` registers, then `invitee` opens the
   * invite link. The invitee's record names the inviter, yet the inviter's count stays 0.
   */
  lemma AsWrittenInviterNotCredited(inviter: Sender, invitee: Sender, bot: string, t0: Time, t1: Time)
    requires inviter.id != invitee.id
    ensures var link := InviteLink(bot, inviter.id);
      var events := [StartEvent(inviter, "", t0), StartEvent(invitee, StartParameter(bot, link).value, t1)];
      var st := Run(Empty, events, ByRawPayload);
      && NumKey(invitee.id) in st.users
      && st.users[NumKey(invitee.id)].referredBy == Some(IntToString(inviter.id))
      && ReferralCount(st.users, inviter.id) == 0
  {
    var payload := IntToString(inviter.id);
    var events := [StartEvent(inviter, "", t0), StartEvent(invitee, payload, t1)];
    OtherInviteLinkAccepted(bot, invitee, inviter.id, t1);
    var st1 := Start(Empty, events[0], ByRawPayload).state;
    var st2 := Start(st1, events[1], ByRawPayload).state;
    assert events[1..] == [events[1]];
    assert Run(st1, [events[1]], ByRawPayload) == Run(st2, [], ByRawPayload) == st2;
    assert Run(Empty, events, ByRawPayload) == st2;
    AsWrittenCountsStayZero(events, inviter.id);
  }

  /** The same scenario with the lookup by parsed id: the inviter's count becomes 1. */
  lemma ParsedInviterCredited(inviter: Sender, invitee: Sender, bot: string, t0: Time, t1: Time)
    requires inviter.id != invitee.id
    ensures var link := InviteLink(bot, inviter.id);
      var events := [StartEvent(inviter, "", t0), StartEvent(invitee, StartParameter(bot, link).value, t1)];
      var st := Run(Empty, events, ByParsedId);
      && NumKey(invitee.id) in st.users
      && st.users[NumKey(invitee.id)].referredBy == Some(IntToString(inviter.id))
      && ReferralCount(st.users, inviter.id) == 1
  {
    var payload := IntToString(inviter.id);
    var events := [StartEvent(inviter, "", t0), StartEvent(invitee, payload, t1)];
    OtherInviteLinkAccepted(bot, invitee, inviter.id, t1);
    var st1 := Start(Empty, events[0], ByParsedId).state;
    EmptyValid();
    StartPreservesValid(Empty, events[0], ByParsedId);
    ParsedLookupCredits(st1, events[1], inviter.id);
    var st2 := Start(st1, events[1], ByParsedId).state;
    assert events[1..] == [events[1]];
    assert Run(st1, [events[1]], ByParsedId) == Run(st2, [], ByParsedId) == st2;
    assert Run(Empty, events, ByParsedId) == st2;
  }
}
