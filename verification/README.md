# Referral ledger of the trust-referral reward bot

A Dafny model of the state logic inside the chat bot's four handlers
(`start`, `get_link`, `stats`, `new_member`) in `trust_referral_reward_bot.py`.
The bot keeps two tables. `referrals` maps a user id, stored as text, to a
referral count. `invite_links` maps a user id, stored as text, to the latest
link id issued to that user. A deep-link `/start inviter_<id>` credits the
named inviter unless the sender names themselves. Each member added to the
group credits the user who added it. A credit that brings a count to exactly
30 triggers a reward announcement. `/stats` lists the positive counts.
`/getlink` records a fresh link id and hands out a deep link.

The model is a pure transition function. `Bot.Step` takes a `Ledger` (the two
tables as immutable maps) and an `Event`, and returns an `Outcome`: the new
ledger plus a list of abstract effects (`Reply`, `Congratulate`,
`RewardPhoto`, which names the inviter whose reward the image belongs to). Platform facts the handlers cannot compute arrive as event
fields:
- the generated link id;
- whether the platform created its invite link;
- the bot's id and name;
- the chat;
- the optional `from_user` of a join message.

Modules:
- `Wrappers`: `Option`.
- `Text`: `startswith` and `split`, with `Join` and `TakeUntil` as partners.
- `Decimal`: `int()` and `str()` on integers.
- `DeepLink`: the `inviter_<id>` parameter and the link URL.
- `Ledger`: the two tables; credit, link record and the stats query.
- `Bot`: events, effects and handlers.
- `Properties`: lemmas over single events and runs of events.
- `Findings`: the file as written compared with the intended behaviour.

The handlers take a `Variant`. `Intended` is the behaviour the rest of the
model uses. `AsWritten` models two defects of the file, listed under Findings.
`Bot.Step` uses `Intended`; `Bot.StepAsWritten` uses `AsWritten`.

## Model

| member | source | states |
|---|---|---|
| Text.Split | trust_referral_reward_bot.py:49 | `str.split` on one separator gives at least one piece and no piece contains the separator |
| Text.TakeUntil | trust_referral_reward_bot.py:49 | the longest separator-free prefix: a prefix of the text, free of the separator, and followed by it when shorter than the text |
| Text.JoinSplit | trust_referral_reward_bot.py:49 | joining the pieces of a split with the separator gives back the original text |
| Text.SplitJoin | trust_referral_reward_bot.py:49 | splitting a join of separator-free pieces gives back exactly those pieces |
| Text.FirstFieldIsTakeUntil | trust_referral_reward_bot.py:49 | the first piece of a split is the text up to the first separator |
| Decimal.ParseInt | trust_referral_reward_bot.py:49 | `int()` succeeds exactly on an optional sign followed by one or more ASCII digits; the value is the digits' decimal value, negated after a minus sign |
| Decimal.NatToString | trust_referral_reward_bot.py:57 | `str()` of a natural number is a non-empty digit string whose value is the number, with no leading zero ("0" only for 0) |
| Decimal.IntToString | trust_referral_reward_bot.py:57 | `int()` reads the ledger key `str(n)` back as `n`; for `n >= 0` the key is digits only with no leading zero; for `n < 0` it is `-` followed by a digit other than 0; it has no underscore |
| Decimal.IntToStringInjective | trust_referral_reward_bot.py:57 | distinct user ids give distinct ledger keys |
| Decimal.LeadingZeroIgnored | trust_referral_reward_bot.py:49 | a leading zero does not change the value of a digit string |
| Decimal.ZeroPaddedLiteral | trust_referral_reward_bot.py:49 | `int()` gives the same result with or without a leading zero |
| Decimal.StripZeros | trust_referral_reward_bot.py:49 | removing leading zeros from a digit string gives a canonical digit string with the same value |
| Decimal.NatToStringOfCanonical | trust_referral_reward_bot.py:57 | `str()` of the value of a canonical digit string is that string |
| Decimal.ParseThenPrintIsCanonical | trust_referral_reward_bot.py:49-57 | for every integer literal, `str(int(s))` is `s` without a `+` and without leading zeros, and `-` only before a non-zero value |
| DeepLink.SecondFieldIsInviterField | trust_referral_reward_bot.py:47-49 | for an `inviter_` parameter, `split("_")[1]` exists and is the text between the first and second underscore |
| DeepLink.ParseInviter | trust_referral_reward_bot.py:47-49 | no inviter without the `inviter_` prefix; with the prefix, the inviter is `int()` of the field after the first underscore, and nothing when `int()` fails |
| DeepLink.RejectedParams | trust_referral_reward_bot.py:47-49 | a parameter names no inviter exactly when it lacks the prefix or its field is not an integer literal (`inviter_abc`, `inviter_`) |
| DeepLink.TrailingFieldsIgnored | trust_referral_reward_bot.py:49 | fields after the second underscore do not affect the parsed inviter |
| DeepLink.ParseStartParam | trust_referral_reward_bot.py:113 | the start parameter of the link issued to a user parses back to that user |
| DeepLink.DeepLinkUrl | trust_referral_reward_bot.py:113 | the intended link lies under `https://t.me/` |
| Ledger.Credit | trust_referral_reward_bot.py:54-64 | a credit returns the previous count plus one (1 for a missing row); the stored value equals the returned one; no other referral row and no link row changes |
| Ledger.RecordLink | trust_referral_reward_bot.py:98-101 | insert-or-replace: the user's link row holds the new id; every other link row and the referral table are unchanged |
| Ledger.RecordLinkOverwrites | trust_referral_reward_bot.py:98-101 | issuing twice to one user leaves one row, holding the second id |
| Ledger.StatsRows | trust_referral_reward_bot.py:131 | the stats query returns exactly the users with a positive count, each with its stored count |
| Ledger.StatsShowEveryRow | trust_referral_reward_bot.py:131 | when every row is positive, the stats query returns the whole referral table |
| Ledger.CreditKeepsRowsPositive | trust_referral_reward_bot.py:54-61 | a credit keeps every stored count positive and lowers none |
| Bot.HandleStart | trust_referral_reward_bot.py:45-84 | the last effect is a greeting without arguments and a welcome with them; no arguments, an unparsable parameter or a self-referral leaves the ledger unchanged; otherwise only the inviter's row goes up by one |
| Bot.HandleGetLink | trust_referral_reward_bot.py:92-122 | the link row is written whether or not the platform creates its link; the reply is the deep link on success and a failure message otherwise |
| Bot.HandleStats | trust_referral_reward_bot.py:129-143 | the ledger is only read; with no positive count the reply is "nobody yet"; otherwise, as intended, the reply lists the positive rows |
| Bot.HandleMembers | trust_referral_reward_bot.py:150-193 | with an adder, the adder's count rises by the number of new members other than the bot, also when the adder is one of them; no other row or link changes; without an adder, nothing happens |
| Properties.AdmitMemberAnnounces | trust_referral_reward_bot.py:152-189 | one admitted member congratulates a user exactly when that user's count crosses 30; as intended it sends that user's photo exactly then too, as written never |
| Properties.MembersAnnounce | trust_referral_reward_bot.py:150-189 | a join event congratulates a user exactly when that user's count crosses 30, and lowers no count; as intended it sends that user's photo exactly then too, as written never |
| Properties.StartAnnounces | trust_referral_reward_bot.py:45-79 | as intended, a start congratulates a user and sends that user's photo exactly when that user's count crosses 30, and lowers no count |
| Properties.StepAnnouncesOnCrossing | trust_referral_reward_bot.py:69 | any event, as intended, congratulates a user and sends that user's photo exactly when that user's count crosses 30; counts never fall |
| Properties.RunAnnouncesOnce | trust_referral_reward_bot.py:179 | over any run of events, a user gets the congratulation and the photo once each if the run takes their count from below 30 to at least 30, and never otherwise |
| Properties.HandleKeepsRowsPositive | trust_referral_reward_bot.py:54-61 | every handler keeps every stored count positive |
| Properties.MembersKeepRowsPositive | trust_referral_reward_bot.py:163-170 | the join loop keeps every stored count positive |
| Properties.RunKeepsRowsPositive | trust_referral_reward_bot.py:163-170 | any run of events keeps every stored count positive |
| Properties.RunFromEmptyStatsListEveryRow | trust_referral_reward_bot.py:131-143 | from empty tables, `/stats` answers "nobody yet" exactly when the referral table is empty, and otherwise lists the whole table |
| Properties.RepeatedStartsCount | trust_referral_reward_bot.py:45-64 | n starts through a user's link by n other senders raise that user's count by exactly n and change nothing else |
| Properties.LinkThenStartCreditsIssuer | trust_referral_reward_bot.py:98-113 | after a link is issued to user a, a start by another user with that link's parameter credits a once; a's link row holds the issued id |
| Properties.ThirtiethStartRewards | trust_referral_reward_bot.py:69-82 | as intended, the start that brings a count from 29 to 30 sends the congratulation and the photo to the group, then the welcome |
| Properties.ThirtiethJoinRewards | trust_referral_reward_bot.py:179-189 | as intended, the join that brings the adder's count from 29 to 30 sends the congratulation and then the photo to the joining chat |
| Properties.StartCreditsCanonicalKey | trust_referral_reward_bot.py:49-61 | a start whose inviter field is an integer literal other than the sender credits the field's canonical text by one and changes no other row |
| Properties.PaddedInviterCreditsCanonicalKey | trust_referral_reward_bot.py:49-57 | `inviter_007` on empty tables credits the key "7" with count 1 |
| Findings.AsWrittenStartOnlyReplies | trust_referral_reward_bot.py:70 | as written, every start produces only its reply |
| Findings.AsWrittenThirtiethStartIsSilent | trust_referral_reward_bot.py:69-82 | as written, the 30th credit through a start stores 30 but only sends the welcome |
| Findings.AsWrittenJoinSendsNoPhoto | trust_referral_reward_bot.py:186-189 | as written, the join handler never sends the reward photo |
| Findings.AsWrittenStatsSilent | trust_referral_reward_bot.py:141 | as written, `/stats` sends nothing once some count is positive; as intended, it lists the rows |
| Findings.AsWrittenSameLedger | trust_referral_reward_bot.py:62 | the as-written and intended handlers write the same tables |
| Findings.AsWrittenLinkLacksSlash | trust_referral_reward_bot.py:113 | as written, the link for a bot name not starting with '/' is not under `https://t.me/` |
| Findings.IntendedLinkNamesRequester | trust_referral_reward_bot.py:113 | as intended, the link is under `https://t.me/`, names the bot, and its start parameter parses back to the requester |

## Left out

- Message text, display-name lookups (`get_chat_member`) and the sending calls are abstract effects. A platform call that fails inside `start` or `new_member` is not modelled; only the invite-link creation outcome of `get_link` is an input.
- `requests.get` of the reward image is network I/O. It is the `RewardPhoto` effect.
- sqlite connections, commits and storage errors are storage plumbing. `init_db` and the schema are the empty `Ledger.Empty`.
- `uuid.uuid4()` is randomness. The link id is an event field.
- The read-then-increment race between concurrent handlers is out of scope: events are handled one at a time.
- `debug_update`, `error_handler`, logging, `main` and `run_polling` are framework wiring.
- Decimal.ParseInt: models `int()` only on whitespace-free text with ASCII digits. Telegram splits arguments at whitespace, and a field of `split("_")` holds no underscore; non-ASCII Unicode digits are not modelled.
- Bot.HandleStats: assumes every display-name lookup succeeds. In the source, a `get_chat_member` that raises at line 141 is not caught, so `/stats` then sends no reply at all. For example, this happens once a start has credited an id the platform cannot look up. As intended, the model always replies with the standings.
- `GROUP_CHAT_ID` is the text "-1001250582965" in the file; the platform takes text or number alike, and the model uses the number.
- The row order of `/stats` is storage order. The model returns the rows as a map.
- The join handler checks only that the new member is not the bot (line 152). It does not check the adder, and it has no self-referral guard. The start path has one (line 51).

## Findings

| source | as written | input that shows it | evidently intended | confidence | as-written member | corrected member |
|---|---|---|---|---|---|---|
| trust_referral_reward_bot.py:227-233 | `PHOTO_PATH` and `GROUP_CHAT_ID` are assigned after `main()`. `main()` polls until the bot stops, so every handler raises NameError when it reads them | a start `inviter_5` by user 6 when user 5 has count 29: the count becomes 30 but only the welcome is sent. Also `/stats` when any count is positive: nothing is sent | constants defined before `main()` runs: congratulation and photo at 30, standings on `/stats` | high (not executed) | Findings.AsWrittenThirtiethStartIsSilent, Findings.AsWrittenJoinSendsNoPhoto, Findings.AsWrittenStatsSilent | Properties.ThirtiethStartRewards, Properties.ThirtiethJoinRewards |
| trust_referral_reward_bot.py:113 | the deep link is `https://t.me` followed directly by the bot's name | bot name `RewardBot`, user 5: `https://t.meRewardBot?start=inviter_5` | `https://t.me/RewardBot?start=inviter_5` | high (not executed) | Findings.AsWrittenLinkLacksSlash | Findings.IntendedLinkNamesRequester |
