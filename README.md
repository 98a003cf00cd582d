# Referral bot registry, in Dafny

`bot.js` is a Telegram bot that runs a giveaway in which users invite friends through a
personal link. It keeps two in-memory maps: `users`, the user records keyed by Telegram id,
and `referralRecords`, the set of `"<referrer>_<user>"` pair keys already counted. The `/start`
handler rejects a user who opens their own link, registers unknown users (get-or-create),
records the pair key once, and pushes the new user's id onto the referrer's `referrals`
list. The length of that list is the user's referral count, which the `get_invite_link`
and `my_stats` screens show. User names are put into MarkdownV2 messages through
`escapeMarkdown`, which backslash-escapes the 18 reserved characters of Telegram's
MarkdownV2 formatting.

This project models that core and proves properties of it.

- `wrappers.dfy` has the `Option` type.
- `decimal.dfy` models `Number.prototype.toString()` on an integral id (`IntToString`). It
  also has the exact inverse `ParseId`, which accepts only canonical decimal text.
- `markdown.dfy` models `escapeMarkdown` as the same chain of 18 global replacements, in
  source order. It proves that the chain is a per-character escape, gives its length, and
  proves the decoding round trip. `PlainText` models how Telegram reads MarkdownV2 escapes,
  and the file proves what a user sees.
- `referrals.dfy` models the two maps as a value (`Registry`) and the synchronous part of
  the `/start` handler as the transition function `Start`. It also has the registry
  invariant `Valid`, and proves that every start preserves it. Map keys are
  `NumKey(n) | StrKey(s)`, because a JavaScript `Map` compares keys by SameValueZero: the
  number 100 and the string "100" are different keys. The referrer lookup is a parameter.
  `ByRawPayload` is the code as written. `ByParsedId` is the evidently intended lookup
  (see Findings).
- `traces.dfy` models a run of many starts. Node runs each handler's state update to
  completion before its first `await`, so a run is the transition applied one update at a
  time. The file proves invariants of whole runs, that replaying a run is idempotent, and
  the two invite scenarios.
- `bot.dfy` has the class `ReferralBot`, whose fields are the two maps. Its method
  `HandleStart` performs the handler's statements in order, updating the fields in place.
  It is proved equal to `Start`.

The outcome of a start is the rejection, a registration (with its notification and log
intents), or a returning user.

## Model

| member | source | states |
|---|---|---|
| Decimal.IntToString | bot.js:127 | `userId.toString()` is non-empty, holds only `-` and digits, and parses back to exactly the id |
| Decimal.CanonicalRoundTrip | bot.js:127 | a canonical digit string is the printed form of its own value |
| Decimal.ParseIdSound | bot.js:149 | the parse used by the corrected lookup accepts only the exact decimal text of the id it returns |
| Decimal.IntToStringInjective | bot.js:146 | different ids have different decimal texts |
| Markdown.ReplaceAll | bot.js:33 | one `.replace(/c/g, '\\c')`: every occurrence of c gets a `\` before it; its effect on escaped text is stated by `ReplaceStep` |
| Markdown.ReplaceStep | bot.js:33-50 | one more replacement, for a character not yet escaped, on text escaped for a set of characters gives the text escaped for that set plus the character |
| Markdown.EscapeMarkdown | bot.js:31-51 | the 18 replacements in source order; what the chain computes is stated by `EscapeMarkdownIsPerCharacter` and the lemmas below it |
| Markdown.EscapeMarkdownIsPerCharacter | bot.js:31-50 | the chain of 18 global replacements equals escaping each reserved character on its own, because no replacement inserts a character that a later one targets |
| Markdown.EscapeMarkdownOneChar | bot.js:33-50 | a reserved character c becomes `\` followed by c; every other character, including `\`, stays as it is |
| Markdown.EscapeMarkdownAppend | bot.js:31-50 | escaping distributes over concatenation |
| Markdown.EscapeMarkdownLength | bot.js:31-50 | output length = input length + the number of reserved characters in the input |
| Markdown.EscapeMarkdownRoundTrip | bot.js:31-50 | a decoder that drops a `\` only before a reserved character recovers the input exactly |
| Markdown.EscapeMarkdownPlainWithoutBackslash | bot.js:31-50 | for a text without `\`, Telegram's MarkdownV2 reading of the escaped text is the text itself |
| Markdown.BackslashLost | bot.js:31-50 | a name holding `\` followed by an ordinary character passes through unescaped, and Telegram shows it without the `\` |
| Markdown.EscapeMarkdownV2 | bot.js:31-51 | the corrected escape: `\` replaced first, then the same 18 replacements; its meaning is stated by the three lemmas that follow |
| Markdown.EscapeMarkdownV2IsPerCharacter | bot.js:31-50 | the corrected escape (backslashes first, then the same chain) escapes `\` and the 18 reserved characters, one character at a time |
| Markdown.EscapeMarkdownV2IsPlainText | bot.js:31-50 | with the corrected escape, Telegram shows every text exactly as given |
| Markdown.EscapeMarkdownV2Agrees | bot.js:31-50 | on texts without `\`, the corrected escape and the original give the same output |
| Referrals.ReferrerKey | bot.js:149 | a numeric key is found only by the parsed lookup, and only when the payload is exactly that id's decimal text; with the parsed lookup, an id's decimal text always finds that id's key |
| Referrals.IsSelfReferral | bot.js:127 | the guard: a non-empty payload equal to the sender's decimal id; `OwnInviteLinkRejected` and `OtherInviteLinkAccepted` state which links it rejects |
| Referrals.NewRecord | bot.js:133-141 | the record of a new user; `Start` states that it is stored under the user's numeric id |
| Referrals.PairKey | bot.js:146 | the key `${referrerId}_${userId}`; `PairKeyInjective` states that it determines both parts |
| Referrals.Credit | bot.js:149-152 | the push onto the looked-up record, when there is one; `StartFrame` states that no other record changes |
| Referrals.ReferralCount | bot.js:172 | `userData?.referrals?.length \|\| 0`; `ReferralCountBounded` states what it counts |
| Referrals.PairKeyInjective | bot.js:146-147 | a pair key `<referrer>_<user>` determines both the referrer text and the user id |
| Referrals.Start | bot.js:120-172 | self-referral is rejected with both maps unchanged, even for a new id; a returning id changes nothing, whatever the payload, and gets its count; a new id gets a record with id, names, `lastName` or "", `referredBy` = payload or none, `joinDate` = now and no referrals, under key `NumKey(id)`, and its count is 0; the pair key is added exactly when a new id brings a payload; the referrer is notified exactly when the pair key was new; logging is always the last intent |
| Referrals.StartFrame | bot.js:143-152 | a start changes no stored record except the looked-up referrer's, which gets the new id appended; both maps only grow and no record is overwritten |
| Referrals.EmptyValid | bot.js:16-17 | the empty maps satisfy the registry invariant |
| Referrals.NewUserHasNoPairKey | bot.js:146 | in a valid registry, no pair key names an unregistered user, so the dedup check never rejects a new user |
| Referrals.StartPreservesValid | bot.js:143-152 | every start keeps the invariant: records are stored under their own numeric id, the pair keys are exactly those of the registered users' `referredBy`, and each referrals list is duplicate-free and holds only registered users, other than its owner, who were referred by its owner |
| Referrals.AsWrittenNeverCredits | bot.js:149-152 | with the lookup as written, no stored record changes on any start |
| Referrals.ParsedLookupCredits | bot.js:149-152 | with the parsed lookup, a new user arriving through a registered user's link is appended to that user's list, and that user's count goes up by one |
| Referrals.ReferralCountBounded | bot.js:172 | the count read is 0 for an unknown id, and never exceeds the number of distinct registered users referred by that id |
| Referrals.InviteLink | bot.js:195 | the start parameter of the link `https://t.me/<bot>?start=<id>` is exactly the inviter's decimal id |
| Referrals.OwnInviteLinkRejected | bot.js:127-129 | opening one's own invite link is rejected and changes nothing |
| Referrals.OtherInviteLinkAccepted | bot.js:195 | opening another user's link passes the self-referral guard, and the parsed lookup finds that user |
| Traces.RunAppend | bot.js:120-168 | running two sequences of starts one after the other is the same as running their concatenation |
| Traces.RunPreservesValid | bot.js:120-168 | every registry reachable by starts from a valid one is valid |
| Traces.RunExtends | bot.js:143-152 | over any run the maps only grow, and stored records change only by appended referrals |
| Traces.RunSettles | bot.js:132-143 | after a run, the sender of every start in it is registered, unless that start was a self-referral |
| Traces.SettledRunIsIdentity | bot.js:127-132 | starts that are self-referrals or come from registered users change neither map |
| Traces.ReplayIsIdempotent | bot.js:132-147 | replaying any sequence of starts changes nothing, so no pair key and no referral is recorded twice |
| Traces.AsWrittenNoCreditsEver | bot.js:149-152 | as written, a run keeps every referrals list empty |
| Traces.AsWrittenCountsStayZero | bot.js:172 | as written, every count read is 0 after any run from the empty maps |
| Traces.AsWrittenInviterNotCredited | bot.js:149 | as written, when A registers and then B opens A's link, B's record names A, yet A's count is 0 |
| Traces.ParsedInviterCredited | bot.js:149 | with the parsed lookup, the same scenario gives A a count of 1 |
| Bot.ReferralBot.constructor | bot.js:16-17 | both maps start empty, and the invariant holds |
| Bot.ReferralBot.HandleStart | bot.js:120-172 | the in-place updates (`users.set`, `referralRecords.set`, the push onto the referrer's list) leave the fields, and return the outcome, that `Start` gives for the old state |
| Bot.ReferralBot.OnStart | bot.js:120-168 | handling a start on a bot that satisfies the invariant keeps the invariant |
| Bot.ReferralBot.ReferralCountOf | bot.js:172 | `users.get(id)?.referrals?.length \|\| 0` is the count of `ReferralCount`; the same read appears at bot.js:197, 223 and 251 |

## Left out

- Telegram calls are left out: `sendMessage`, `replyWithHTML`, `replyWithMarkdownV2`, `editMessageText`, `getChat` and `launch` are network I/O. The referrer notification and `logNewUser` appear only as intents in the result of a start, in call order.
- The assembly of `logNewUser`'s message, its plain-text fallback and `getUserInfo` (bot.js:54-117) are left out. They are presentation plus I/O with retry on exceptions.
- `formatDate` (bot.js:20-28) is left out. It depends on `toLocaleString` with the `ru-RU` locale. The join time is an opaque integer taken from the start event (`now`).
- The inline keyboards, menu texts, sponsor link and the `my_stats` and `back_to_main` screens are left out, except for the count they read (`ReferralCountOf`).
- Process lifecycle is left out: `.env` loading, the missing-token exit, `launch` and the signal handlers.
- Async interleaving is left out. Every state change of a start happens before its first `await`, so each start is one atomic step. Errors from the awaited calls are caught and change no state.
- Ids are unbounded integers. `Number.prototype.toString()` switches to exponent notation at 1e21, far above any Telegram id, so `IntToString` models only the plain decimal form.
- Records are values. The source stores each record object only in `users`, so pushing onto the referrer's array in place is modelled as storing an updated record under the same key; no aliasing is lost.
- `escapeMarkdown` calls `text.toString()`. Every argument it gets in the source is already a string (first names, usernames, a formatted date and the literal fallback `'не указано'` at bot.js:80), so the model takes a string.
- `StartParameter` models Telegram's deep link only as the text after `?start=`. It does not model Telegram's 64-character limit or its character set.
- Referrals.Start: takes a new user's count in the same step as the registration, although the handler reads it at bot.js:171-172, after the `await`s at bot.js:156 and bot.js:167, and its reply (bot.js:174-184) does not show it. As written the value is 0 either way, because no list ever grows; with the corrected lookup, `Registered(…, 0)` assumes no other start runs during those awaits.
- Referrals.ReferralCountBounded: states an upper bound, not equality with the number of users referred. A user referred by an id that was not registered yet is never added to a list later, so equality does not hold even with the corrected lookup.

## Findings

| source | as written | input that shows it | evidently intended | confidence | as-written member | corrected member |
|---|---|---|---|---|---|---|
| bot.js:149 | `users.get(referrerId)` looks up the string payload, but `users` is keyed by numeric ids (bot.js:143), so the lookup never finds a record and no referrals list ever grows | user 100 registers; user 200 then opens `?start=100` | the record of user 100 is found, and 200 is appended to its referrals, so its count becomes 1 | high; not executed | Traces.AsWrittenInviterNotCredited | Traces.ParsedInviterCredited |
| bot.js:31-50 | `escapeMarkdown` never escapes `\`, although MarkdownV2 treats `\` as the escape character and requires it to be escaped | a first name `\a`: the text is sent unchanged, and Telegram shows `a` | escape `\` first, then the 18 reserved characters, so every name is shown as typed | high; not executed | Markdown.BackslashLost | Markdown.EscapeMarkdownV2IsPlainText |
