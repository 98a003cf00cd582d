/**
 * The referral registry of bot.js: the two in-memory maps `users` and `referralRecords`
 * (bot.js:16-17) and the state update that the `/start` handler performs before its first
 * `await` (bot.js:120-168), as values and a transition function. The class in bot.dfy
 * holds the same state in mutable fields and is proved against `Start`.
 */
module Referrals {
  import opened Wrappers
  import opened Decimal

  /** A JavaScript Date, as milliseconds since the epoch; the model never looks inside. */
  type Time = int

  /**
   * A key of the `users` Map. Maps compare keys by SameValueZero, so the number 100 and
   * the string "100" are different keys.
   */
  datatype Key = NumKey(n: int) | StrKey(s: string)

  /** The sender of an update (`ctx.from`); Telegram always supplies `first_name`. */
  datatype Sender = Sender(id: int, username: Option<string>, firstName: string, lastName: Option<string>)

  /** One `/start` update: who sent it, `ctx.startPayload` ("" when absent), and `new Date()`. */
  datatype StartEvent = StartEvent(from: Sender, payload: string, now: Time)

  /** The object stored in `users` (bot.js:133-141). */
  datatype UserRecord = UserRecord(
    id: int,
    username: Option<string>,
    firstName: string,
    lastName: string,
    referredBy: Option<string>,
    joinDate: Time,
    referrals: seq<int>)

  /**
   * The two Maps. `referralRecords` only ever maps keys to `true`, so it is the set of its
   * keys.
   */
  datatype Registry = Registry(users: map<Key, UserRecord>, referralRecords: set<string>)

  /** The state when the process starts. */
  const Empty: Registry := Registry(map[], {})

  /** A call the handler makes after the state update: `sendMessage` and `logNewUser`. */
  datatype Intent = NotifyReferrer(chatId: string) | LogNewUser(referrerId: string)

  /**
   * How a start ends: the rejection (bot.js:128), a registration with the calls made after
   * it, or a returning user. Both of the latter carry the sender's count, which the handler
   * reads at bot.js:171-172 but does not show in its reply (bot.js:174-184).
   */
  datatype StartOutcome =
    | SelfReferralRejected
    | Registered(intents: seq<Intent>, referralCount: nat)
    | Returning(referralCount: nat)

  datatype StartResult = StartResult(state: Registry, outcome: StartOutcome)

  /**
   * How the referrer's record is looked up (bot.js:149). `ByRawPayload` is the code as
   * written: the payload string itself is the key. `ByParsedId` is the evidently intended
   * lookup: the id whose decimal text the payload is.
   */
  datatype Lookup = ByRawPayload | ByParsedId

  function ReferrerKey(payload: string, lookup: Lookup): (k: Key)
    ensures k.NumKey? ==> lookup == ByParsedId && payload == IntToString(k.n)
    ensures lookup == ByParsedId ==> forall n :: payload == IntToString(n) ==> k == NumKey(n)
  {
    match lookup
    case ByRawPayload => StrKey(payload)
    case ByParsedId =>
      match ParseId(payload)
      case Some(n) => ParseIdSound(payload, n); NumKey(n)
      case None => StrKey(payload)
  }

  /** The key `${referrerId}_${userId}` of `referralRecords` (bot.js:146-147). */
  function PairKey(referrer: string, userId: int): string
  {
    referrer + "_" + IntToString(userId)
  }

  /** A pair key names its referrer text and its user: the user's digits hold no '_'. */
  lemma PairKeyInjective(p: string, u: int, q: string, v: int)
    requires PairKey(p, u) == PairKey(q, v)
    ensures p == q && u == v
  {
    var k, a, b := PairKey(p, u), IntToString(u), IntToString(v);
    assert k == p + "_" + a;
    assert k == q + "_" + b;
    AfterLastUnderscoreOf(p, a);
    AfterLastUnderscoreOf(q, b);
    assert a == k[|k| - |a|..] == b;
    assert p == k[..|k| - |a| - 1] == q;
    IntToStringInjective(u, v);
  }

  /** The text after the last '_' of `s` (all of `s` when it holds none). */
  function AfterLastUnderscore(s: string): (t: string)
    ensures '_' !in t
  {
    if |s| == 0 then s
    else if s[|s| - 1] == '_' then []
    else AfterLastUnderscore(s[..|s| - 1]) + [s[|s| - 1]]
  }

  lemma {:induction false} AfterLastUnderscoreOf(p: string, a: string)
    requires '_' !in a
    ensures AfterLastUnderscore(p + "_" + a) == a
  {
    var s := p + "_" + a;
    if |a| > 0 {
      var a' := a[..|a| - 1];
      assert s[..|s| - 1] == p + "_" + a';
      AfterLastUnderscoreOf(p, a');
      assert a == a' + [a[|a| - 1]];
    }
  }

  /** The guard of bot.js:127: a non-empty payload equal to the sender's own id. */
  predicate IsSelfReferral(ev: StartEvent) {
    ev.payload != "" && ev.payload == IntToString(ev.from.id)
  }

  /** The record bot.js:133-141 creates. */
  function NewRecord(ev: StartEvent): UserRecord {
    UserRecord(
      ev.from.id,
      ev.from.username,
      ev.from.firstName,
      ev.from.lastName.GetOr(""),
      if ev.payload != "" then Some(ev.payload) else None,
      ev.now,
      [])
  }

  /** `userData?.referrals?.length || 0` for the sender's numeric id (bot.js:172, 197, 223, 251). */
  function ReferralCount(users: map<Key, UserRecord>, id: int): nat {
    if NumKey(id) in users then |users[NumKey(id)].referrals| else 0
  }

  /** `referrerData.referrals.push(userId)` when the lookup finds a record (bot.js:149-152). */
  function Credit(users: map<Key, UserRecord>, referrer: Key, userId: int): map<Key, UserRecord> {
    if referrer in users then users[referrer := Appended(users[referrer], userId)] else users
  }

  function Appended(rec: UserRecord, userId: int): UserRecord {
    rec.(referrals := rec.referrals + [userId])
  }

  /** The start passes the self-referral guard and its sender is not yet registered. */
  predicate Registers(st: Registry, ev: StartEvent) {
    !IsSelfReferral(ev) && NumKey(ev.from.id) !in st.users
  }

  /** The start registers its sender with a payload whose pair key is not yet recorded. */
  predicate RecordsEdge(st: Registry, ev: StartEvent) {
    Registers(st, ev) && ev.payload != "" && PairKey(ev.payload, ev.from.id) !in st.referralRecords
  }

  /** A record that differs from `before` at most by entries appended to its referrals. */
  predicate Grown(before: UserRecord, after: UserRecord) {
    after == before.(referrals := after.referrals) && before.referrals <= after.referrals
  }

  /** Both maps only grow, and a stored record changes only by appended referrals. */
  predicate Extends(a: Registry, b: Registry) {
    && a.users.Keys <= b.users.Keys
    && a.referralRecords <= b.referralRecords
    && forall k :: k in a.users ==> Grown(a.users[k], b.users[k])
  }

  /**
   * The `/start` handler (bot.js:122-172): the self-referral guard, get-or-create
   * registration, the pair-key dedup, the referrer update, and the sender's count read at
   * bot.js:171-172. The `await`ed calls become intents. For a new user the source reads the
   * count after those calls; the model reads it in the same step.
   */
  function Start(st: Registry, ev: StartEvent, lookup: Lookup): (r: StartResult)
    // bot.js:127-129: a self-referral is answered before anything is stored.
    ensures IsSelfReferral(ev) ==> r == StartResult(st, SelfReferralRejected)
    // bot.js:132: a returning user changes nothing, whatever the payload.
    ensures !IsSelfReferral(ev) && NumKey(ev.from.id) in st.users ==>
      r == StartResult(st, Returning(|st.users[NumKey(ev.from.id)].referrals|))
    // bot.js:133-143: a new user gets a fresh record and starts with no referrals.
    ensures Registers(st, ev) ==>
      && r.state.users.Keys == st.users.Keys + {NumKey(ev.from.id)}
      && r.state.users[NumKey(ev.from.id)] == NewRecord(ev)
      && r.outcome == Registered(
           (if RecordsEdge(st, ev) then [NotifyReferrer(ev.payload)] else []) + [LogNewUser(ev.payload)],
           0)
    // bot.js:146-147: the pair key is recorded only for a new user with a payload.
    ensures r.state.referralRecords ==
      if Registers(st, ev) && ev.payload != "" then st.referralRecords + {PairKey(ev.payload, ev.from.id)}
      else st.referralRecords
  {
    var userId := ev.from.id;
    var referrerId := ev.payload;
    if IsSelfReferral(ev) then
      StartResult(st, SelfReferralRejected)
    else if NumKey(userId) in st.users then
      StartResult(st, Returning(ReferralCount(st.users, userId)))
    else
      var users := st.users[NumKey(userId) := NewRecord(ev)];
      var pair := PairKey(referrerId, userId);
      var isNewEdge := referrerId != "" && pair !in st.referralRecords;
      var referrer := ReferrerKey(referrerId, lookup);
      assert isNewEdge ==> referrer != NumKey(userId);
      var users' := if isNewEdge then Credit(users, referrer, userId) else users;
      var records' := if isNewEdge then st.referralRecords + {pair} else st.referralRecords;
      var intents := (if isNewEdge then [NotifyReferrer(referrerId)] else []) + [LogNewUser(referrerId)];
      StartResult(Registry(users', records'), Registered(intents, ReferralCount(users', userId)))
  }

  /**
   * bot.js:149-152: of the stored records only the looked-up referrer's changes, by one
   * appended id; so both maps only grow and no record is overwritten.
   */
  lemma StartFrame(st: Registry, ev: StartEvent, lookup: Lookup)
    ensures var r := Start(st, ev, lookup);
      forall k :: k in st.users ==>
        r.state.users[k] ==
          if RecordsEdge(st, ev) && k == ReferrerKey(ev.payload, lookup) then Appended(st.users[k], ev.from.id)
          else st.users[k]
    ensures Extends(st, Start(st, ev, lookup).state)
  {
  }

  // ---------------------------------------------------------------------------------
  // The registry invariant

  predicate Distinct(s: seq<int>) {
    forall i, j :: 0 <= i < j < |s| ==> s[i] != s[j]
  }

  /** `u` is registered, is not `r`, and was referred by the link of `r`. */
  predicate IsReferralOf(users: map<Key, UserRecord>, u: int, r: int) {
    NumKey(u) in users && u != r && users[NumKey(u)].referredBy == Some(IntToString(r))
  }

  /** The pair keys that the registered users' `referredBy` fields account for. */
  ghost function EdgeKeys(users: map<Key, UserRecord>): set<string> {
    set k | k in users && users[k].referredBy.Some? :: PairKey(users[k].referredBy.value, users[k].id)
  }

  /** A referrals list holds distinct users, each referred by the list's owner. */
  predicate CreditsSound(users: map<Key, UserRecord>, rec: UserRecord) {
    && Distinct(rec.referrals)
    && forall i :: 0 <= i < |rec.referrals| ==> IsReferralOf(users, rec.referrals[i], rec.id)
  }

  /**
   * What every reachable state satisfies: users are stored under their numeric id,
   * `referralRecords` holds exactly the pair keys of the registered users who came with a
   * payload, and every referrals list is duplicate-free and sound.
   */
  ghost predicate Valid(st: Registry) {
    && (forall k :: k in st.users ==> k == NumKey(st.users[k].id))
    && st.referralRecords == EdgeKeys(st.users)
    && (forall k :: k in st.users ==> CreditsSound(st.users, st.users[k]))
  }

  lemma EmptyValid()
    ensures Valid(Empty)
  {
  }

  /** The dedup check of bot.js:146 never fires for a new user: no pair key names it yet. */
  lemma NewUserHasNoPairKey(st: Registry, p: string, u: int)
    requires Valid(st)
    requires NumKey(u) !in st.users
    ensures PairKey(p, u) !in st.referralRecords
  {
    if PairKey(p, u) in st.referralRecords {
      var k :| k in st.users && st.users[k].referredBy.Some?
        && PairKey(st.users[k].referredBy.value, st.users[k].id) == PairKey(p, u);
      PairKeyInjective(st.users[k].referredBy.value, st.users[k].id, p, u);
      assert false;
    }
  }

  lemma EdgeKeysAdd(users: map<Key, UserRecord>, k: Key, rec: UserRecord)
    requires k !in users
    ensures EdgeKeys(users[k := rec]) ==
      EdgeKeys(users) + if rec.referredBy.Some? then {PairKey(rec.referredBy.value, rec.id)} else {}
  {
    var m := users[k := rec];
    forall x | x in EdgeKeys(m)
      ensures x in EdgeKeys(users) + if rec.referredBy.Some? then {PairKey(rec.referredBy.value, rec.id)} else {}
    {
      var j :| j in m && m[j].referredBy.Some? && x == PairKey(m[j].referredBy.value, m[j].id);
      if j != k {
        assert j in users;
      }
    }
    forall x | x in EdgeKeys(users) ensures x in EdgeKeys(m) {
      var j :| j in users && users[j].referredBy.Some? && x == PairKey(users[j].referredBy.value, users[j].id);
      assert j in m && m[j] == users[j];
    }
    if rec.referredBy.Some? {
      assert k in m && m[k] == rec;
    }
  }

  lemma EdgeKeysIgnoreReferrals(users: map<Key, UserRecord>, k: Key, rec: UserRecord)
    requires k in users && Grown(users[k], rec)
    ensures EdgeKeys(users[k := rec]) == EdgeKeys(users)
  {
    var m := users[k := rec];
    forall x | x in EdgeKeys(m) ensures x in EdgeKeys(users) {
      var j :| j in m && m[j].referredBy.Some? && x == PairKey(m[j].referredBy.value, m[j].id);
      assert j in users && users[j].referredBy == m[j].referredBy && users[j].id == m[j].id;
    }
    forall x | x in EdgeKeys(users) ensures x in EdgeKeys(m) {
      var j :| j in users && users[j].referredBy.Some? && x == PairKey(users[j].referredBy.value, users[j].id);
      assert j in m && users[j].referredBy == m[j].referredBy && users[j].id == m[j].id;
    }
  }

  /** A sound referrals list stays sound when records only grow. */
  lemma CreditsSoundGrows(a: Registry, b: Registry, rec: UserRecord)
    requires Extends(a, b)
    requires CreditsSound(a.users, rec)
    ensures CreditsSound(b.users, rec)
  {
  }

  /** Every start keeps the registry invariant. */
  lemma StartPreservesValid(st: Registry, ev: StartEvent, lookup: Lookup)
    requires Valid(st)
    ensures Valid(Start(st, ev, lookup).state)
  {
    if Registers(st, ev) {
      var u, p := ev.from.id, ev.payload;
      var rec := NewRecord(ev);
      var users := st.users[NumKey(u) := rec];
      var st' := Start(st, ev, lookup).state;
      StartFrame(st, ev, lookup);
      EdgeKeysAdd(st.users, NumKey(u), rec);
      var rk := ReferrerKey(p, lookup);
      if p != "" {
        NewUserHasNoPairKey(st, p, u);
        assert RecordsEdge(st, ev);
        if rk in users {
          assert st'.users == users[rk := Appended(users[rk], u)];
          EdgeKeysIgnoreReferrals(users, rk, Appended(users[rk], u));
          var before := st.users[rk];
          assert rk == NumKey(before.id);
          assert st'.users[NumKey(u)] == rec;
          AppendedSound(st, st', before, u);
        } else {
          assert st'.users == users;
        }
      } else {
        assert st'.users == users;
      }
      assert st'.referralRecords == EdgeKeys(st'.users);
      forall k | k in st'.users ensures CreditsSound(st'.users, st'.users[k]) {
        if k == NumKey(u) {
          assert st'.users[k].referrals == [];
        } else if p != "" && k == rk {
        } else {
          assert st'.users[k] == st.users[k];
          CreditsSoundGrows(st, st', st.users[k]);
        }
      }
    }
  }

  /** Appending a new referral of the list's owner keeps the list sound. */
  lemma AppendedSound(a: Registry, b: Registry, rec: UserRecord, u: int)
    requires Extends(a, b)
    requires CreditsSound(a.users, rec)
    requires NumKey(u) !in a.users
    requires IsReferralOf(b.users, u, rec.id)
    ensures CreditsSound(b.users, Appended(rec, u))
  {
  }

  // ---------------------------------------------------------------------------------
  // What the invariant gives the handler

  /** As written, the lookup of bot.js:149 is by the payload string: no record is ever credited. */
  lemma AsWrittenNeverCredits(st: Registry, ev: StartEvent)
    requires Valid(st)
    ensures forall k :: k in st.users ==> Start(st, ev, ByRawPayload).state.users[k] == st.users[k]
  {
  }

  /**
   * With the lookup by parsed id, a new user arriving through the link of a registered
   * user is credited to that user exactly once.
   */
  lemma ParsedLookupCredits(st: Registry, ev: StartEvent, referrer: int)
    requires Valid(st)
    requires NumKey(referrer) in st.users
    requires ev.payload == IntToString(referrer)
    requires NumKey(ev.from.id) !in st.users
    ensures var users' := Start(st, ev, ByParsedId).state.users;
      users'[NumKey(referrer)].referrals == st.users[NumKey(referrer)].referrals + [ev.from.id]
    ensures ReferralCount(Start(st, ev, ByParsedId).state.users, referrer) == ReferralCount(st.users, referrer) + 1
  {
    assert !IsSelfReferral(ev);
    NewUserHasNoPairKey(st, ev.payload, ev.from.id);
    assert RecordsEdge(st, ev);
  }

  /** The registered users, other than `r`, whose `referredBy` is the decimal id of `r`. */
  ghost function ReferredUsers(users: map<Key, UserRecord>, r: int): set<int> {
    set k | k in users && k.NumKey? && IsReferralOf(users, k.n, r) :: k.n
  }

  lemma {:induction false} DistinctCard(s: seq<int>)
    requires Distinct(s)
    ensures |set x | x in s| == |s|
  {
    if |s| > 0 {
      var t := s[..|s| - 1];
      DistinctCard(t);
      assert (set x | x in s) == (set x | x in t) + {s[|s| - 1]};
      assert s[|s| - 1] !in t;
    }
  }

  /**
   * The count read at bot.js:172, 197, 223 and 251, and shown at bot.js:202 and 230, counts
   * distinct users, each registered and referred by the counted user's link: it is at most
   * the number of such users, so replayed or duplicated starts never inflate it.
   */
  lemma ReferralCountBounded(st: Registry, r: int)
    requires Valid(st)
    ensures ReferralCount(st.users, r) <= |ReferredUsers(st.users, r)|
    ensures NumKey(r) !in st.users ==> ReferralCount(st.users, r) == 0
  {
    if NumKey(r) in st.users {
      var refs := st.users[NumKey(r)].referrals;
      assert st.users[NumKey(r)].id == r;
      DistinctCard(refs);
      forall x | x in refs ensures x in ReferredUsers(st.users, r) {
        var i :| 0 <= i < |refs| && refs[i] == x;
        assert IsReferralOf(st.users, refs[i], r);
      }
      var credited := set x | x in refs;
      SubsetCard(credited, ReferredUsers(st.users, r));
    }
  }

  lemma SubsetCard(a: set<int>, b: set<int>)
    requires a <= b
    ensures |a| <= |b|
  {
    assert b == a + (b - a);
  }

  // ---------------------------------------------------------------------------------
  // The invite link of bot.js:195

  const LinkHost: string := "https://t.me/"

  /** `https://t.me/${botUsername}?start=${inviterId}`. */
  function InviteLink(botUsername: string, inviter: int): (link: string)
    ensures StartParameter(botUsername, link) == Some(IntToString(inviter))
  {
    LinkHost + botUsername + "?start=" + IntToString(inviter)
  }

  /** The `start` parameter Telegram passes on as `ctx.startPayload` when a link of the bot is opened. */
  function StartParameter(botUsername: string, link: string): Option<string> {
    var head := LinkHost + botUsername + "?start=";
    if |head| <= |link| && link[..|head|] == head then Some(link[|head|..]) else None
  }

  /** Opening one's own invite link is exactly what the guard of bot.js:127 rejects. */
  lemma OwnInviteLinkRejected(st: Registry, botUsername: string, from: Sender, now: Time, lookup: Lookup)
    ensures var payload := StartParameter(botUsername, InviteLink(botUsername, from.id)).value;
      Start(st, StartEvent(from, payload, now), lookup) == StartResult(st, SelfReferralRejected)
  {
  }

  /** Opening someone else's invite link passes the guard and names that user. */
  lemma OtherInviteLinkAccepted(botUsername: string, from: Sender, inviter: int, now: Time)
    requires from.id != inviter
    ensures var payload := StartParameter(botUsername, InviteLink(botUsername, inviter)).value;
      && !IsSelfReferral(StartEvent(from, payload, now))
      && ReferrerKey(payload, ByParsedId) == NumKey(inviter)
  {
  }
}
