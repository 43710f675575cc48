# Funding bot core, modelled in Dafny

The system is a Telegram bot with a points economy. Users earn points in
three ways: when someone they referred joins with `/start <their id>`, from
a daily gift, and from administrators. They spend the points on *funding
requests*: a request asks the bot to add members to a channel or group, at
25 points per member. A request passes through these stages:

- the user picks a funding type;
- the user sends a member count that their balance covers;
- the user sends the channel link, and the cost is debited;
- an administrator approves or rejects the request, and a rejection refunds the cost;
- a background worker delivers the members of an approved request, taking them
  from the active source groups, and records the request as completed or failed.

Administrators can also:
- grant admin rights, ban users and add points by text commands;
- toggle maintenance mode and point transfers;
- set the transfer fee and the maintenance message;
- page through the user list.

The project has these modules:

- `Text`: the Python string operations the handlers rely on. These are
  `split`, `strip`, `str.isdigit`, `int`, `str`, `replace` and `' '.join`.
- `Commands`: the administrator's text commands, parsed from the words of the message.
- `Records`: the database rows, their column defaults and the configuration constants.
- `Ledger`: each change to a single row, written as a function from the old row to the new one.
- `Conversation`: the per-user conversation data, the routing of text
  messages, `extract_channel_id` and the parsing of callback data.
- `AdminSettings`: checking the fee and maintenance-message inputs, the
  toggles and the paging arithmetic.
- `MemberAdder`: the delivery algorithm. Its loops are methods proved
  against recursive specification functions.
- `Store`: the whole database and the conversations as one value, with each
  handler as a step function and lemmas relating several steps.
- `Bot`: the class `BotState`, whose fields are the tables. Its handlers
  update those fields in place, and each is proved to produce exactly the
  state its `Store` step describes while keeping the store valid.

Several behaviours of the code are modelled as written, and lemmas exhibit them:
- a request can be rejected twice, and each rejection refunds it;
- a request already completed can still be rejected and refunded;
- the cost is debited at the link step without checking the balance again;
- a count of 0 is accepted;
- counts above the configured 50-member maximum are accepted;
- `/start <own id>` credits the new user;
- a referral made while there is no points-settings row adds that row but credits nobody;
- a failed delivery is not refunded.

## Model

| member | source | states |
|---|---|---|
| Text.ParseIntRoundTrip | bot_handlers.py:44 | `int` reads back every number `str` writes |
| Text.DigitsRoundTrip | bot_handlers.py:287-291 | the digits written for a natural number pass `isdigit` and read back as that number |
| Text.ParseInt | bot_handlers.py:291 | `int` succeeds only on text that is not blank once the whitespace `int` skips is cut; `ParseIntRoundTrip` is its partner |
| Text.IsIntSpace | bot_handlers.py:432 | every character `int` skips is whitespace to `isspace()`; the separators 28 to 31 are not skipped, and every other `isspace()` character is |
| Text.IntStrip | bot_handlers.py:432 | what `int` reads has no skippable whitespace at either end, and a text with none at its ends is read as it stands |
| Text.SeparatorBeforeNumber | admin_panel_handlers.py:624-636 | `int` refuses a number preceded by a separator control, and reads it once `strip()` has removed the control |
| Text.IntToString | bot_handlers.py:411 | `str(n)` is non-empty and holds no whitespace |
| Text.Split | bot_handlers.py:136 | `split(sep)` gives at least one piece, and more than one exactly when the separator occurs |
| Text.JoinSplit | bot_handlers.py:136 | joining the pieces of a split with its separator gives back the text |
| Text.Strip | admin_panel_handlers.py:624 | `strip()` leaves no whitespace at either end, is empty exactly when the text is all whitespace, and leaves text without whitespace unchanged |
| Text.IsSpace | admin_panel_handlers.py:624 | the whitespace that `strip()` and `split()` skip includes space, tab, newline and carriage return, and no printable ASCII character |
| Text.Words | bot_handlers.py:546 | `split()` gives no words exactly when the text is all whitespace; `WordsAreWords` and `WordsOfJoin` state the rest |
| Text.Join | bot_handlers.py:573 | `' '.join` of no parts is empty, and a join of parts begins with the first part; `JoinSplit` and `WordsOfJoin` are its inverses |
| Text.StartsWith | bot_handlers.py:545 | `s.startswith(p)` holds exactly when `s` is `p` followed by the rest of `s` |
| Text.IsDigits | bot_handlers.py:287 | a text that passes `isdigit()` is non-empty and holds no whitespace and no sign |
| Text.StripSlice | admin_panel_handlers.py:624 | the stripped text is a slice of the original, with only whitespace cut from either end |
| Text.WordsAreWords | bot_handlers.py:546 | every word `split()` returns is non-empty and holds no whitespace |
| Text.WordsOfJoin | bot_handlers.py:573 | words joined by single spaces split back into the same words |
| Text.WordsOfCommand | bot_handlers.py:546 | a command word and its arguments, joined by spaces, split back into themselves |
| Text.RemoveChar | bot_handlers.py:551 | `replace('@', '')` leaves no `@`, never lengthens the text, and leaves text without `@` unchanged |
| Records.NewUser | database.py:9-24 | a new user row: the given id and names, 0 points, 0 referrals, no referrer, not banned, not admin, permissions `[]`, no gift yet |
| Records.NewGroupSource | database.py:39-49 | a new source group row is active, public, with 0 members |
| Records.NewFundingRequest | database.py:51-64 | a new request is pending, with nothing delivered and no approver, stamped with its creation time |
| Records.DefaultSystemSettings | database.py:77-85 | the seeded system settings: maintenance off, transfers on, a 5% fee, the default message |
| Records.DefaultPointsSettings | database.py:87-96 | the seeded points settings: 25 per member, 5 per referral, 3 per gift, 2 per channel, 25 minimum |
| Records.DefaultsMatchConfig | config.py:21-25 | the seeded points settings equal the configuration constants |
| Records.BootstrapAdmin | database.py:136-145 | the bootstrap administrator row: the configured id, username `admin`, an administrator with permissions `["all"]` |
| Ledger.CooldownIsRollingWindow | bot_handlers.py:238 | `(now - last).days < 1` holds exactly when less than 86400 seconds have passed |
| Ledger.OnCooldown | bot_handlers.py:238 | no earlier gift, or a gift a whole day or more ago, is no cooldown; a gift from 0 to 86399 seconds ago is |
| Ledger.DailyGift | bot_handlers.py:236-249 | during the cooldown the row is unchanged; otherwise 3 points are added and the gift time is set to now; no other column changes |
| Ledger.GiftRefusedForADay | bot_handlers.py:236-249 | a second gift within 24 hours is refused and changes nothing |
| Ledger.GiftGrantedAfterADay | bot_handlers.py:236-249 | a gift 24 hours or more after the last one is granted again |
| Ledger.Credit | bot_handlers.py:494-496 | a credit adds exactly the amount and changes nothing else |
| Ledger.Debit | bot_handlers.py:348 | a debit takes exactly the amount, with no lower bound, and changes nothing else |
| Ledger.CreditUndoesDebit | bot_handlers.py:494-496 | a refund of the debited amount restores the row |
| Ledger.CreditReferrer | bot_handlers.py:52-53 | the referrer gains the configured points and one more referral |
| Ledger.Approve | bot_handlers.py:445-447 | approval sets the status, approver and update time, whatever the previous status |
| Ledger.Reject | bot_handlers.py:498-499 | rejection sets the status and approver, whatever the previous status |
| Ledger.CompleteAtOnce | bot_handlers.py:467-475 | the placeholder delivery marks the request completed with everything it asked for |
| Ledger.Finish | member_adder.py:56-57 | the delivered count replaces the old one; the status is completed exactly when it is positive, and failed exactly when it is 0; the update stamp (database.py:64) is the time of the run |
| Conversation.RouteOf | bot_handlers.py:516-524 | text goes to the count step when a type is chosen but no count is stored; to the link step when a count and a cost are stored; anywhere else otherwise |
| Conversation.LinkStepHasEverything | bot_handlers.py:309-310 | in well-formed conversation data, a stored count implies the link step and a stored type and cost |
| Conversation.ExtractChannelId | bot_handlers.py:377-389 | an `@` name is returned unchanged; any other text yields a channel exactly when it contains `t.me/`, and that result starts with `@` or `+` and contains no `/` |
| Conversation.ExtractFromLink | bot_handlers.py:381-387 | after the first `t.me/`, the segment up to the next `/` gives `@segment`, or the `+` invite code unchanged |
| Conversation.ExtractHttpsLink | bot_handlers.py:381-387 | an `https://t.me/<name>[/...]` link yields `@name`, and an invite link yields its `+` code |
| Conversation.PlainTextIsNoLink | bot_handlers.py:377-389 | text without `/` that does not start with `@` is refused |
| Conversation.FundingTypeFromCallback | bot_handlers.py:135-137 | a funding type is read exactly from `funding_type_` data, and is the third `_` field |
| Conversation.FundingTypeButtons | bot_handlers.py:146-147 | each funding-type button's data reads back as its type |
| Conversation.RequestButtonsRoundTrip | bot_handlers.py:411-412 | the approve and reject buttons' data reads back as the request's id |
| Conversation.RequestIdFromCallback | bot_handlers.py:432 | data without `_` yields no id; `RequestButtonsRoundTrip` shows that the buttons' data yields its request's id |
| Conversation.PageFromCallback | admin_panel_handlers.py:88-93 | data without the paging prefix shows page 1 |
| Conversation.PageButtonsRoundTrip | admin_panel_handlers.py:119-125 | the previous and next buttons' data reads back as their page number |
| Conversation.UnparsablePageIsFirst | admin_panel_handlers.py:90-93 | a page number that does not parse falls back to page 1 |
| AdminSettings.DecideFee | admin_panel_handlers.py:636-640 | text that is not a number is refused as such; a number outside 0..50 is refused as out of range; otherwise the number is accepted |
| AdminSettings.EveryValidFeeAccepted | admin_panel_handlers.py:636-640 | every fee from 0 to 50, written as a number, is accepted as itself |
| AdminSettings.OutOfRangeFeeRefused | admin_panel_handlers.py:638-640 | every number outside 0..50 is refused |
| AdminSettings.MaintenanceMessageInput | admin_panel_handlers.py:661-665 | a message is refused exactly when it is blank; an accepted one is exactly the stripped text, with no whitespace at either end |
| AdminSettings.SetTransferFee | admin_panel_handlers.py:643-647 | the fee, updater and update time are set, and nothing else changes |
| AdminSettings.SetMaintenanceMessage | admin_panel_handlers.py:668-671 | the message, updater and update time are set, and nothing else changes |
| AdminSettings.ToggleMaintenance | admin_panel_handlers.py:402-405 | maintenance mode is flipped and stamped, and nothing else changes |
| AdminSettings.ToggleTransfer | admin_panel_handlers.py:422-425 | transfers are flipped and stamped, and nothing else changes |
| AdminSettings.ToggleTwiceRestores | admin_panel_handlers.py:403 | toggling twice restores every setting except the stamp |
| AdminSettings.Offset | admin_panel_handlers.py:103 | the offset is a multiple of 10, and is non-negative exactly from page 1 on |
| AdminSettings.HasPrevious | admin_panel_handlers.py:119-120 | the previous button is shown exactly when the offset skips at least one whole page of users |
| AdminSettings.HasNext | admin_panel_handlers.py:124-125 | the next button is shown exactly when this page's window ends before that of the last page |
| AdminSettings.TotalPages | admin_panel_handlers.py:100 | the page count is 0 exactly when there are no users; otherwise it is the ceiling of users/10 |
| AdminSettings.EveryUserOnSomePage | admin_panel_handlers.py:98-103 | every user lies on a page within range, inside that page's window |
| AdminSettings.PagesInRangeAreNonEmpty | admin_panel_handlers.py:103 | every page from the first to the last starts at an existing user |
| AdminSettings.NavigationStaysInRange | admin_panel_handlers.py:119-125 | the previous and next buttons lead to pages in range; the last page has no next button |
| MemberAdder.Eligible | member_adder.py:129-131 | only candidates that are not bots and have status `member` are kept, and every such listed candidate is kept |
| MemberAdder.IsEligible | member_adder.py:129 | bots and every status other than `member` are excluded; a non-bot `member` is included |
| MemberAdder.EligibleAppend | member_adder.py:129-131 | filtering a listing in two parts gives the two filtered parts, in order |
| MemberAdder.EligibleFromListing | member_adder.py:129-131 | every kept candidate was listed |
| MemberAdder.Fetch | member_adder.py:118-135 | the fetch returns at most `limit` members, all eligible |
| MemberAdder.FetchTakesFirstEligible | member_adder.py:124-131 | the fetch returns exactly the first `limit` eligible members |
| MemberAdder.GetGroupMembers | member_adder.py:118-135 | the loop returns the fetch: a prefix of the eligible members, all of them when fewer than `limit` |
| MemberAdder.CountOf | member_adder.py:93-106 | at most one counted add per listed member |
| MemberAdder.Counts | member_adder.py:93-106 | a successful add counts; a privacy refusal and a foreign exception do not; a Telegram error whose text is `USER_ALREADY_PARTICIPANT` counts, a shorter one cannot |
| MemberAdder.Run | member_adder.py:82-105 | the loop counts at most one member per candidate it tries |
| MemberAdder.RunBounded | member_adder.py:82-105 | a group never counts more than asked for, nor more than its counted outcomes |
| MemberAdder.RunWithoutAbort | member_adder.py:82-111 | when no add fails outside Telegram's errors, the count is the smaller of the counted outcomes and the maximum |
| MemberAdder.GroupYield | member_adder.py:74-81 | a group asked for no members adds none |
| MemberAdder.GroupYieldBounded | member_adder.py:74-116 | one group's yield is at most the maximum and at most its eligible members that count |
| MemberAdder.GroupFilled | member_adder.py:74-116 | a group with enough eligible members, all of whom can be added, fills the maximum |
| MemberAdder.AddMembersFromGroup | member_adder.py:74-116 | fetches twice the maximum, then tries them in order, as `GroupYield` specifies |
| MemberAdder.TryMembers | member_adder.py:82-111 | stops at the maximum or at a failure outside Telegram's errors; counts successful adds and "already participant" answers |
| MemberAdder.ChannelTotal | member_adder.py:33-53 | a request that needs nothing, or has no active group, gets nothing; `BarrenGroupSkipped` shows that a group yielding nobody does not stop the later ones |
| MemberAdder.ChannelTotalBounded | member_adder.py:33-45 | a request never receives more than it asked for |
| MemberAdder.EmptyListingYieldsNothing | member_adder.py:74-81 | a group whose fetch lists nobody yields nobody |
| MemberAdder.BarrenGroupSkipped | member_adder.py:37-53 | a group that yields nobody, by a failed fetch or failed adds, leaves the later groups' delivery exactly as without it |
| MemberAdder.NoEligibleNoDelivery | member_adder.py:33-45 | groups with no eligible members deliver nothing |
| MemberAdder.MoreGroupsNeverDeliverLess | member_adder.py:33-45 | one more active group never lowers the total |
| MemberAdder.FirstGroupFills | member_adder.py:33-45 | a first group that can supply everything fills the request, and later groups add nothing |
| MemberAdder.CollectFromGroups | member_adder.py:33-45 | the loop over groups computes `ChannelTotal`, at most the count asked for |
| Store.Start | bot_handlers.py:8-58 | an unsubscribed or known user changes nothing; a new user is appended to the users; only users and, possibly, a default points row change; no user row changes but the named referrer's; without an argument naming another existing user, the new user is only registered |
| Store.ReferrerArgument | bot_handlers.py:41-43 | no argument, or a first argument that `int()` refuses, names no referrer |
| Store.ReferrerIdRoundTrip | bot_handlers.py:41-43 | a first argument written as a user id names exactly that id |
| Store.Register | bot_handlers.py:29-39 | the new user's row is added under its id and appended to the row order |
| Store.CreditReferral | bot_handlers.py:41-56 | the referral keeps the set of users, their ids and the row order |
| Store.CreditReferralFrame | bot_handlers.py:41-56 | the referral changes only users and, possibly, adds the default points row; without a first argument naming an existing user nothing changes; no row changes but the referrer's and the new user's |
| Store.ReferBy | bot_handlers.py:46-53 | the referral, given the referrer id read from the arguments, keeps the set of users and their ids |
| Store.ReferByFrame | bot_handlers.py:46-53 | given the referrer id, only the referrer's and the new user's rows can change, and an id that is no user changes nothing |
| Store.Referred | bot_handlers.py:51-53 | crediting the referrer and recording it on the new user adds no row and re-keys none |
| Store.StartOnlyOnce | bot_handlers.py:29-30 | a second `/start` by the same user changes nothing |
| Store.ReferralCredited | bot_handlers.py:41-54 | a new user naming an existing referrer credits the configured points and one referral, and records the referrer |
| Store.SelfReferralCredited | bot_handlers.py:41-54 | `/start <own id>` credits the new user itself |
| Store.ReferralWithoutSettingsRow | bot_handlers.py:48-53 | with no points settings row, a referral adds the default row and credits nobody |
| Store.DailyGiftStep | bot_handlers.py:232-252 | an unknown user changes nothing; otherwise only that user's row changes, as `DailyGift` says |
| Store.DailyGiftOncePerDay | bot_handlers.py:236-249 | two presses within a day credit the gift once |
| Store.SelectFundingType | bot_handlers.py:135-137 | a funding-type button stores the type in the conversation and changes nothing else |
| Store.HandleFundingRequest | bot_handlers.py:280-310 | the count and its cost are stored exactly when a type is chosen, the text is digits, the user is known and the balance covers the cost; otherwise nothing changes |
| Store.CountAccepted | bot_handlers.py:284-300 | no chosen type, non-digit text or an unknown user refuses the count; an accepted count has a balance covering its non-negative cost |
| Store.ZeroCountAccepted | bot_handlers.py:287-310 | a count of 0 is stored, with a cost of 0 |
| Store.CountAboveMaximumAccepted | bot_handlers.py:291-310 | any count the balance covers is stored, even above the 50-member maximum |
| Store.HandleChannelLink | bot_handlers.py:320-375 | when the user is known, a count is stored, the link is valid and the bot is an administrator: the stored cost is debited, a pending request is added under the next id, and the conversation is cleared; otherwise nothing changes |
| Store.LinkAccepted | bot_handlers.py:320-339 | an unknown user, no stored count, an invalid link or the bot not being an administrator refuses the link |
| Store.LinkStepSkipsBalanceCheck | bot_handlers.py:345-348 | the link step debits even when the balance no longer covers the cost, leaving it negative |
| Store.HandleMessage | bot_handlers.py:514-538 | empty text is ignored; text is routed to the count step or the link step; any other text from a subscribed, known administrator goes to the command handler |
| Store.FundingFlow | bot_handlers.py:280-375 | choosing a type, a count and an `@` link debits count × 25 and adds one pending request for that count |
| Store.ApproveStep | admin_panel_handlers.py:542-579 | the panel's approval changes only that request; an unknown id changes nothing |
| Store.ApproveFromChat | bot_handlers.py:439-475 | the chat's approval leaves the request completed, with its whole count delivered, and changes no other request |
| Store.RejectStep | bot_handlers.py:487-512 | a rejection credits the owner, if known, the request's cost and marks it rejected; nothing else changes |
| Store.CreateThenRejectRestoresBalances | bot_handlers.py:348-496 | creating a request and then rejecting it restores every balance |
| Store.DoubleRejectRefundsTwice | bot_handlers.py:487-500 | rejecting the same request twice refunds it twice |
| Store.RejectAfterCompletionRefunds | bot_handlers.py:487-500 | a request the chat approval has completed is still refunded in full when rejected |
| Store.AdminButtonStep | bot_handlers.py:425-437 | the chat buttons approve or reject the request whose id the data holds; data whose id does not parse changes nothing |
| Store.PanelCallbackStep | admin_panel_handlers.py:497-540 | no panel button adds or removes a user, reorders the users, changes the groups or uses up a request id |
| Store.PanelCallbackDispatch | admin_panel_handlers.py:497-540 | each state-changing panel button runs its step, the system and transfer views seeding the system settings and the points view the points settings; request buttons whose id does not parse change nothing |
| Store.PanelNamedButtons | admin_panel_handlers.py:335-339 | the transfer view seeds the system settings row, as the system view does |
| Store.PanelRequestButtons | admin_panel_handlers.py:536-539 | an approve or reject button runs the approval or rejection of the id it holds, or nothing when that does not parse |
| Store.SeedSystemSettings | admin_panel_handlers.py:262-266 | opening the system view adds the default system settings row when there is none, and otherwise changes nothing |
| Store.SeedPointsSettings | admin_panel_handlers.py:301-305 | opening the points view adds the default points settings row when there is none, and otherwise changes nothing |
| Store.ApproveButtonActsOnItsRequest | bot_handlers.py:411 | the approve button sent for a request approves that request, in the chat and in the panel |
| Store.RejectButtonActsOnItsRequest | bot_handlers.py:412 | the reject button sent for a request rejects that request, in the chat and in the panel |
| Commands.ParseCommand | bot_handlers.py:540-611 | `/add_admin`, `/ban` and `/add_points` are recognised by prefix; each carries its second word with `@` removed, `/ban` the remaining words joined by spaces, `/add_points` its third word read as a number; text with none of the prefixes is no command |
| Store.ParseAddAdmin | bot_handlers.py:545-551 | `/add_admin <who> ...` names `<who>` with its `@` removed |
| Store.ParseBan | bot_handlers.py:566-573 | `/ban <who> <reason...>` names `<who>` without `@`, with the reason words joined by single spaces |
| Store.ParseAddPointsWords | bot_handlers.py:590-597 | `/add_points <who> <amount> ...` is a command exactly when the amount reads as a number, and then carries that number |
| Store.ParseAddPoints | bot_handlers.py:590-597 | `/add_points <who> <str(n)>` carries exactly n, negative numbers included |
| Store.FirstWithUsername | bot_handlers.py:555 | the user found has that username and no user before it in row order does; none is found only when no user has it |
| Store.FindTarget | bot_handlers.py:552-555 | an all-digits target is looked up by id; any other target by username, and the user found is the first in row order with it |
| Store.ApplyCommand | bot_handlers.py:558-611 | an unknown target changes nothing; otherwise only the target's row changes: made admin, banned with the reason, or credited the amount |
| Store.HandleAdminCommands | bot_handlers.py:540-611 | only the named user's row can change, and no user is added or removed |
| Store.AddPointsCreditsExactly | bot_handlers.py:596-608 | `/add_points` adds exactly the amount, negative amounts included |
| Store.ToggleMaintenanceStep | admin_panel_handlers.py:394-412 | without a settings row nothing changes; otherwise only maintenance mode is toggled |
| Store.ToggleTransferStep | admin_panel_handlers.py:414-432 | without a settings row nothing changes; otherwise only transfers are toggled |
| Store.TogglesTwiceRestore | admin_panel_handlers.py:394-432 | pressing a toggle twice restores its setting |
| Store.EditTransferFeeMenu | admin_panel_handlers.py:434-446 | only this user's waiting-for-fee flag is set |
| Store.EditMaintenanceMsg | admin_panel_handlers.py:448-459 | only this user's waiting-for-message flag is set |
| Store.HandleAdminInput | admin_panel_handlers.py:622-679 | a non-admin changes nothing. An accepted fee or message is written to the settings row, if one exists, and ends the wait. A refused input changes nothing. Only the settings and the conversation change |
| Store.FeeMenuThenValidFee | admin_panel_handlers.py:634-654 | opening the fee menu and sending a fee in range sets the fee and ends the wait |
| Store.FeeInput | admin_panel_handlers.py:634-657 | text that is not a number, or a number outside 0..50, changes nothing; an accepted fee is written to the settings row, if there is one, and ends the wait; only the settings and this user's conversation change |
| Store.MaintenanceMessageStep | admin_panel_handlers.py:660-676 | blank text changes nothing; otherwise the stripped message is written to the settings row, if there is one, and ends the wait; only the settings and this user's conversation change |
| Store.FeeOutOfRangeKeepsWaiting | admin_panel_handlers.py:638-640 | a fee out of range leaves the settings alone and keeps waiting |
| Store.InitDatabase | database.py:119-153 | a missing settings row gets its default, and a missing bootstrap administrator is added; nothing else changes |
| Store.InitDatabaseIdempotent | database.py:126-145 | initialising twice equals initialising once |
| Store.InitDatabaseKeepsValid | database.py:119-153 | initialisation keeps the store valid and leaves the bootstrap user an administrator |
| Store.ActiveListings | member_adder.py:29 | at most one listing per source group; no active group gives no listings, and an all-active table gives one per group |
| Store.ActiveListingsAppend | member_adder.py:29 | a group at the end of the table is asked last, and only when it is active: table order is kept and inactive groups are skipped |
| Store.Listing | member_adder.py:132-135 | a group the gateway does not list, a failed fetch, lists nobody; otherwise its listing is the gateway's |
| Store.FailedFetchYieldsNothing | member_adder.py:118-135 | a group whose fetch failed yields nobody, however many are asked for |
| Store.NoActiveGroupFails | member_adder.py:29-57 | with no active source group, an attempted request ends failed with nothing delivered |
| Store.Processed | member_adder.py:14-58 | only an approved request with a known owner is attempted; it ends completed or failed, with at most the count it asked for |
| Store.AddMembersToChannelStep | member_adder.py:14-58 | one delivery run changes only its own request |
| Store.AddMembersOnlyOnce | member_adder.py:16-18 | a second run on the same request changes nothing |
| Store.ProcessedReadsItsOwnRow | member_adder.py:14-58 | a run depends only on its own request, the users and the groups |
| Store.RunAdvancesCycle | member_adder.py:137-150 | a run for the next id, part-way through a cycle in id order, is the cycle's next step |
| Store.Cycle | member_adder.py:137-150 | a worker cycle changes only requests, and keeps their ids |
| Store.CycleSettlesApproved | member_adder.py:137-150 | after a cycle, no approved request with a known owner is still approved, none got more than it asked for, and no balance moved |
| Store.CycleLeavesOthers | member_adder.py:143 | a cycle leaves requests that were not approved untouched |
| Store.StartKeepsValid | database.py:12 | `/start` keeps user ids unique and the row order complete |
| Store.RegisterKeepsValid | database.py:12 | adding a new user's row keeps user ids unique and the row order complete |
| Store.ReferByKeepsValid | bot_handlers.py:46-53 | the referral adds no user and re-keys none, so the store stays valid |
| Store.AddMembersKeepsValid | member_adder.py:55-57 | one delivery run keeps every request under its own id |
| Store.LinkKeepsValid | database.py:53 | a new request takes a fresh id |
| Store.CommandsKeepValid | bot_handlers.py:540-611 | administrator commands keep the store valid |
| Store.MessageKeepsValid | bot_handlers.py:514-538 | every text message keeps the store valid |
| Store.RequestStepsKeepValid | member_adder.py:56-58 | approvals, rejections and worker cycles keep the store valid |
| Store.CycleKeepsValid | member_adder.py:137-150 | a worker cycle keeps every request under its own id |
| Store.CountStepKeepsWellFormed | bot_handlers.py:309-310 | the count step keeps every conversation well formed |
| Store.MessageKeepsWellFormed | bot_handlers.py:514-538 | every text message keeps every conversation well formed |
| Store.ButtonsKeepWellFormed | bot_handlers.py:135-137 | the funding-type button and the two input menus keep every conversation well formed |
| Store.AdminInputKeepsWellFormed | admin_panel_handlers.py:654-676 | administrator input keeps every conversation well formed |
| Store.LinkStepFindsItsData | bot_handlers.py:320-345 | in a well-formed conversation, the link step is refused only for an unknown user, a bad link or a bot that is not an administrator |
| Bot.BotState.constructor | database.py:108-109 | an empty database |
| Bot.BotState.InitDatabase | database.py:119-153 | in place, reaches the state of `Store.InitDatabase` and keeps the store valid |
| Bot.BotState.StartCommand | bot_handlers.py:8-58 | in place, reaches the state of `Store.Start` and keeps the store valid |
| Bot.BotState.ReferralOf | bot_handlers.py:41-56 | in place, reaches the state of `Store.CreditReferral` and keeps the store valid |
| Bot.BotState.Refer | bot_handlers.py:46-53 | in place, reaches the state of `Store.ReferBy` and keeps the store valid |
| Bot.BotState.GiveDailyGift | bot_handlers.py:232-252 | in place, reaches the state of `Store.DailyGiftStep` |
| Bot.BotState.SelectFundingType | bot_handlers.py:135-137 | in place, reaches the state of `Store.SelectFundingType` |
| Bot.BotState.HandleFundingRequest | bot_handlers.py:280-318 | in place, reaches the state of `Store.HandleFundingRequest` |
| Bot.BotState.HandleChannelLink | bot_handlers.py:320-375 | in place, reaches the state of `Store.HandleChannelLink` and keeps the store valid |
| Bot.BotState.HandleMessage | bot_handlers.py:514-538 | in place, reaches the state of `Store.HandleMessage` |
| Bot.BotState.HandleAdminCommands | bot_handlers.py:540-611 | in place, reaches the state of `Store.HandleAdminCommands` |
| Bot.BotState.StartAddingMembers | bot_handlers.py:467-475 | marks the request completed with its whole count, and changes nothing else |
| Bot.BotState.ApproveFundingRequestInChat | bot_handlers.py:439-465 | in place, reaches the state of `Store.ApproveFromChat` |
| Bot.BotState.ApproveFundingRequest | admin_panel_handlers.py:542-579 | in place, reaches the state of `Store.ApproveStep` |
| Bot.BotState.RejectFundingRequest | bot_handlers.py:487-512 | in place, reaches the state of `Store.RejectStep` |
| Bot.BotState.HandleAdminButtons | bot_handlers.py:425-437 | in place, reaches the state of `Store.AdminButtonStep` |
| Bot.BotState.ToggleMaintenance | admin_panel_handlers.py:394-412 | in place, reaches the state of `Store.ToggleMaintenanceStep` |
| Bot.BotState.ToggleTransfer | admin_panel_handlers.py:414-432 | in place, reaches the state of `Store.ToggleTransferStep` |
| Bot.BotState.EditTransferFeeMenu | admin_panel_handlers.py:434-446 | in place, reaches the state of `Store.EditTransferFeeMenu` |
| Bot.BotState.EditMaintenanceMsg | admin_panel_handlers.py:448-459 | in place, reaches the state of `Store.EditMaintenanceMsg` |
| Bot.BotState.SeedSystemSettings | admin_panel_handlers.py:262-266 | in place, reaches the state of `Store.SeedSystemSettings` and keeps the store valid |
| Bot.BotState.SeedPointsSettings | admin_panel_handlers.py:301-305 | in place, reaches the state of `Store.SeedPointsSettings` and keeps the store valid |
| Bot.BotState.HandleAdminCallback | admin_panel_handlers.py:497-540 | in place, reaches the state of `Store.PanelCallbackStep` |
| Bot.BotState.HandleAdminInput | admin_panel_handlers.py:622-679 | in place, reaches the state of `Store.HandleAdminInput` |
| Bot.BotState.ReadTransferFee | admin_panel_handlers.py:634-657 | in place, reaches the state of `Store.FeeInput` and keeps the store valid |
| Bot.BotState.ReadMaintenanceMessage | admin_panel_handlers.py:660-676 | in place, reaches the state of `Store.MaintenanceMessageStep` and keeps the store valid |
| Bot.BotState.AddMembersToChannel | member_adder.py:14-72 | in place, reaches the state of `Store.AddMembersToChannelStep` and keeps the store valid; returns the delivered count exactly when the request was attempted |
| Bot.BotState.ProcessPendingRequests | member_adder.py:137-150 | one cycle in id order, in place, reaches the state of `Store.Cycle` and keeps the store valid |

## Left out

- Telegram I/O is not modelled: messages, keyboards, alerts, edited messages and notifications to users and administrators.
- Logging, the sleeps between adds, groups and cycles, and the worker's endless loop are not modelled. One loop iteration is `ProcessPendingRequests`.
- The mandatory-channel check and the check that the bot administers the target channel are Telegram calls. They become the boolean parameters `subscribed` and `botIsAdmin`.
- Group member listings and the answers to add attempts come from Telegram. They become a `Gateway` parameter. A listing missing from it is a failed fetch, which lists nobody.
- Time is a parameter `now`, in whole seconds. A `datetime` becomes an integer.
- Database sessions are not modelled: each handler is one atomic step. `database.py` defines `SessionLocal` and `get_db` (database.py:108-117) but no module-level `session`, so `from database import session` in `bot_handlers.py` (line 3) and `member_adder.py` (line 4) fails as written. The model assumes the evidently intended single shared session. One case follows from this. In the link step, the in-memory debit comes before a lookup of the funding type that can fail. A later flush of the shared session could then still write that debit. The model treats the failed lookup as no change, and `Store.LinkStepFindsItsData` shows the lookup cannot fail in a well-formed conversation.
- Integer columns are unbounded. Only SQLite is assumed, so no column width is modelled.
- Whitespace for `strip()` and `split()` is exactly what Python's `str.isspace()` accepts. `int()` skips the same set except the separator controls 28 to 31 (`Text.IsIntSpace`): CPython keeps ASCII characters as they are and skips only tab to carriage return and the space, so callback data such as `approve_request_` followed by that control and an id is refused as the source refuses it. Digits are ASCII only: `isdigit()` and `int()` also accept other Unicode decimal digits, and `int()` accepts single underscores between digits; neither is modelled.
- View-only handlers change no state and are not modelled: statistics, user and admin lists, channels, groups, requests and broadcast screens, the transfers log, and the user-side menus. For the user list, only the paging arithmetic is modelled. The system, points and transfer views are modelled only by the settings row they add when it is missing.
- Point transfers are not modelled. No handler in the modelled code writes a `PointsTransfer`; its row shape is in `Records`.
- Handler registration in `main.py` is not modelled, including its import of a module that is not part of this model; every handler is an entry point of the model. As wired, the bot would not reach several of them:
  - both text handlers are registered with `filters.TEXT & ~filters.COMMAND` (main.py:48 and 51), so `/add_admin`, `/ban` and `/add_points` never reach `handle_message` or `handle_admin_commands`;
  - `handle_admin_input` sits in the same group as `handle_message` after it (main.py:48-51), so it never sees a text message;
  - `button_handler` is the first callback handler of the group and has no pattern (main.py:40), so it takes every button press before `handle_admin_callback` and the approve and reject handlers (main.py:41-45);
  - `handle_admin_buttons` is not registered at all.
- `member_adder.py` cannot be imported as written: line 1 reads `hereimport asyncio`, a syntax error; line 3 imports `UserPrivacyRestrictedError`; and line 4 imports the `session` that `database.py` does not define. The model describes the evidently intended module.
- Bot.BotState.ProcessPendingRequests: the worker's query returns approved requests in an unspecified order. This method runs them in id order. `Store.Cycle` defines the result for each request independently, so any order gives the same state.
- Commands.ParseCommand: its contract states what each recognised command carries and that text with none of the three prefixes is no command. It does not state that a prefixed text with too few words is refused; only the body says that. `Store.ParseAddPointsWords` states that an amount that is not a number is refused.
- Store.HandleAdminCommands: its contract states only the frame (which row can change). `Store.ApplyCommand` states what each command does to that row.
- The `/start` ban check and welcome message, and the `check_subscription` button, change nothing and are not modelled.
