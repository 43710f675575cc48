/**
 * The bot's database together with every user's conversation data, as one
 * value, and each handler as a step from the old value to the new one.
 * These functions are the specification the in-place handlers of `Bot`
 * are proved against, and the lemmas here relate several steps.
 */
module Store {
  import opened Base
  import opened Text
  import opened Records
  import opened Ledger
  import opened Conversation
  import opened AdminSettings
  import opened MemberAdder
  import opened Commands

  /**
   * The tables the handlers touch. Users are keyed by their Telegram id,
   * which the table keeps unique, and `userOrder` lists them in row order;
   * requests are keyed by their row id. Each settings table holds at most
   * one row, since rows are only added to an empty table.
   */
  datatype Db = Db(
    users: map<int, User>,
    userOrder: seq<int>,
    requests: map<int, FundingRequest>,
    nextRequestId: int,
    groups: seq<GroupSource>,
    system: Option<SystemSettings>,
    pointsSettings: Option<PointsSettings>,
    userData: map<int, UserData>)

  /** The keys agree with the rows, and every request id was handed out already. */
  ghost predicate Valid(db: Db) {
    (forall k :: k in db.users ==> db.users[k].userId == k)
    && (forall k :: k in db.userOrder <==> k in db.users)
    && (forall id :: id in db.requests ==> db.requests[id].id == id && 1 <= id < db.nextRequestId)
    && 1 <= db.nextRequestId
  }

  /** A user's conversation data; a user who has none has the empty one. */
  function UserDataOf(db: Db, uid: int): UserData {
    if uid in db.userData then db.userData[uid] else EmptyUserData
  }

  predicate ConversationsWellFormed(db: Db) {
    forall uid :: uid in db.userData ==> WellFormed(db.userData[uid])
  }

  // ---------------------------------------------------------------- /start

  /**
   * `/start`: a user who is not subscribed to the mandatory channels, or who
   * is known already, changes nothing. A new user is inserted first; then,
   * when the first argument is the id of a user (the new one included), that
   * user is credited the configured referral points and the new user records
   * the referrer. Without a points settings row a default row is added, but
   * its unset amount makes the credit fail and nothing is credited.
   */
  function Start(db: Db, uid: int, username: Option<string>, firstName: Option<string>,
                 lastName: Option<string>, args: seq<string>, subscribed: bool, now: int): (d: Db)
    ensures !subscribed || uid in db.users ==> d == db
    ensures subscribed ==> uid in d.users
    ensures subscribed && uid !in db.users ==>
      d.users.Keys == db.users.Keys + {uid} && d.userOrder == db.userOrder + [uid]
      && d.requests == db.requests && d.userData == db.userData && d.system == db.system
      && (d.pointsSettings == db.pointsSettings
          || (db.pointsSettings.None? && d.pointsSettings == Some(DefaultPointsSettings(now))))
    ensures subscribed && uid !in db.users ==>
      forall k :: k in db.users && ReferrerArgument(args) != Some(k) ==> d.users[k] == db.users[k]
    ensures subscribed && uid !in db.users
            && (ReferrerArgument(args).None? || (ReferrerArgument(args).value !in db.users && ReferrerArgument(args).value != uid))
            ==> d == Register(db, uid, username, firstName, lastName, now)
  {
    if !subscribed || uid in db.users then db
    else
      var registered := Register(db, uid, username, firstName, lastName, now);
      CreditReferralFrame(registered, uid, args, now);
      CreditReferral(registered, uid, args, now)
  }

  /** The new user's row, appended to the table. */
  function Register(db: Db, uid: int, username: Option<string>, firstName: Option<string>,
                    lastName: Option<string>, now: int): (d: Db)
    ensures d.users == db.users[uid := NewUser(uid, username, firstName, lastName, now)]
    ensures d.userOrder == db.userOrder + [uid]
    ensures d.(users := db.users, userOrder := db.userOrder) == db
  {
    db.(users := db.users[uid := NewUser(uid, username, firstName, lastName, now)], userOrder := db.userOrder + [uid])
  }

  /** The id a `/start` argument list names as referrer, if its first argument reads as a number. */
  function ReferrerArgument(args: seq<string>): (r: Option<int>)
    ensures |args| == 0 ==> r.None?
    ensures |args| > 0 && ParseInt(args[0]).None? ==> r.None?
  {
    if |args| == 0 then None else ParseInt(args[0])
  }

  /** A `/start` link carrying a user's id, as the bot writes it, names that user as referrer. */
  lemma ReferrerIdRoundTrip(id: int, rest: seq<string>)
    ensures ReferrerArgument([IntToString(id)] + rest) == Some(id)
  {
    ParseIntRoundTrip(id);
  }

  /**
   * The referral part of `/start`, run after the new user's row is in: the
   * first argument must read as the id of a user, the new one included.
   */
  function CreditReferral(db: Db, uid: int, args: seq<string>, now: int): (d: Db)
    requires uid in db.users
    ensures d.users.Keys == db.users.Keys && d.userOrder == db.userOrder
    ensures forall k :: k in db.users ==> d.users[k].userId == db.users[k].userId
  {
    ReferBy(db, uid, ReferrerArgument(args), now)
  }

  /** The referral, once the referrer's id is read (or not) from the arguments. */
  function ReferBy(db: Db, uid: int, referrer: Option<int>, now: int): (d: Db)
    requires uid in db.users
    ensures d.users.Keys == db.users.Keys && d.userOrder == db.userOrder
    ensures forall k :: k in db.users ==> d.users[k].userId == db.users[k].userId
  {
    match referrer
      case None => db
      case Some(rid) =>
        if rid !in db.users then db
        else match db.pointsSettings
          case None => db.(pointsSettings := Some(DefaultPointsSettings(now)))
          case Some(ps) => db.(users := Referred(db.users, rid, uid, ps.pointsPerReferral))
  }

  /**
   * The referral changes only the users and the points settings row; without
   * a referrer that is a user it changes nothing, and with one it changes no
   * row but the referrer's and the new user's.
   */
  lemma CreditReferralFrame(db: Db, uid: int, args: seq<string>, now: int)
    requires uid in db.users
    ensures var d := CreditReferral(db, uid, args, now);
      d.(users := db.users, pointsSettings := db.pointsSettings) == db
      && (d.pointsSettings == db.pointsSettings
          || (db.pointsSettings.None? && d.pointsSettings == Some(DefaultPointsSettings(now))))
      && (ReferrerArgument(args).None? || ReferrerArgument(args).value !in db.users ==> d == db)
      && (forall k :: k in db.users && k != uid && ReferrerArgument(args) != Some(k) ==> d.users[k] == db.users[k])
  {
    ReferByFrame(db, uid, ReferrerArgument(args), now);
  }

  lemma ReferByFrame(db: Db, uid: int, referrer: Option<int>, now: int)
    requires uid in db.users
    ensures var d := ReferBy(db, uid, referrer, now);
      d.(users := db.users, pointsSettings := db.pointsSettings) == db
      && (d.pointsSettings == db.pointsSettings
          || (db.pointsSettings.None? && d.pointsSettings == Some(DefaultPointsSettings(now))))
      && (referrer.None? || referrer.value !in db.users ==> d == db)
      && (forall k :: k in db.users && k != uid && referrer != Some(k) ==> d.users[k] == db.users[k])
  {
    match referrer
    case None =>
    case Some(rid) =>
      if rid in db.users && db.pointsSettings.Some? {
        var users := Referred(db.users, rid, uid, db.pointsSettings.value.pointsPerReferral);
        assert ReferBy(db, uid, referrer, now) == db.(users := users);
        assert forall k :: k in db.users && k != uid && k != rid ==> users[k] == db.users[k];
      }
  }

  /** The referrer is credited, then the new user records the referrer; no row is added or re-keyed. */
  function Referred(users: map<int, User>, rid: int, uid: int, perReferral: int): (u: map<int, User>)
    requires rid in users && uid in users
    ensures u.Keys == users.Keys
    ensures forall k :: k in users ==> u[k].userId == users[k].userId
  {
    var users2 := users[rid := CreditReferrer(users[rid], perReferral)];
    users2[uid := users2[uid].(referredBy := Some(rid))]
  }

  /** A known user's `/start` never credits anybody again: running it twice is running it once. */
  lemma StartOnlyOnce(db: Db, uid: int, username: Option<string>, firstName: Option<string>,
                      lastName: Option<string>, args: seq<string>, args2: seq<string>, now: int, later: int)
    ensures var d := Start(db, uid, username, firstName, lastName, args, true, now);
      Start(d, uid, username, firstName, lastName, args2, true, later) == d
  {
  }

  /** A referral by an existing other user credits exactly that user and records the referrer. */
  lemma ReferralCredited(db: Db, uid: int, username: Option<string>, firstName: Option<string>,
                         lastName: Option<string>, referrer: int, rest: seq<string>, now: int)
    requires uid !in db.users && referrer in db.users && referrer != uid
    requires db.pointsSettings.Some?
    ensures var d := Start(db, uid, username, firstName, lastName, [IntToString(referrer)] + rest, true, now);
      d.users[referrer] == CreditReferrer(db.users[referrer], db.pointsSettings.value.pointsPerReferral)
      && d.users[uid] == NewUser(uid, username, firstName, lastName, now).(referredBy := Some(referrer))
      && (forall k :: k in db.users && k != referrer ==> d.users[k] == db.users[k])
  {
    ParseIntRoundTrip(referrer);
  }

  /**
   * A new user whose own id is the referral argument is found as the
   * referrer, since it was inserted just before: it starts with the referral
   * points, one referral and itself as referrer.
   */
  lemma SelfReferralCredited(db: Db, uid: int, username: Option<string>, firstName: Option<string>,
                             lastName: Option<string>, rest: seq<string>, now: int)
    requires uid !in db.users && db.pointsSettings.Some?
    ensures var d := Start(db, uid, username, firstName, lastName, [IntToString(uid)] + rest, true, now);
      d.users[uid].points == db.pointsSettings.value.pointsPerReferral
      && d.users[uid].referrals == 1 && d.users[uid].referredBy == Some(uid)
      && (forall k :: k in db.users ==> d.users[k] == db.users[k])
  {
    ParseIntRoundTrip(uid);
  }

  /** Without a points settings row a referral credits nobody; a default row is added. */
  lemma ReferralWithoutSettingsRow(db: Db, uid: int, username: Option<string>, firstName: Option<string>,
                                   lastName: Option<string>, referrer: int, rest: seq<string>, now: int)
    requires uid !in db.users && db.pointsSettings.None?
    requires referrer in db.users || referrer == uid
    ensures var d := Start(db, uid, username, firstName, lastName, [IntToString(referrer)] + rest, true, now);
      d.users == db.users[uid := NewUser(uid, username, firstName, lastName, now)]
      && d.pointsSettings == Some(DefaultPointsSettings(now))
  {
    ParseIntRoundTrip(referrer);
  }

  // ---------------------------------------------------------------- daily gift

  /** The daily gift button: an unknown user changes nothing. */
  function DailyGiftStep(db: Db, uid: int, now: int): (d: Db)
    ensures uid !in db.users ==> d == db
    ensures uid in db.users ==> d.users == db.users[uid := DailyGift(db.users[uid], now)]
    ensures d.(users := db.users) == db
  {
    if uid !in db.users then db else db.(users := db.users[uid := DailyGift(db.users[uid], now)])
  }

  /** Two gift presses within a day credit the gift once. */
  lemma DailyGiftOncePerDay(db: Db, uid: int, now: int, later: int)
    requires uid in db.users && !OnCooldown(db.users[uid], now)
    requires now <= later < now + SECONDS_PER_DAY
    ensures DailyGiftStep(DailyGiftStep(db, uid, now), uid, later).users[uid].points
            == db.users[uid].points + DAILY_GIFT_POINTS
  {
    GiftRefusedForADay(db.users[uid], now, later);
  }

  // ---------------------------------------------------------------- funding flow

  /** A `funding_type_<type>` button stores the type, keeping whatever else the conversation holds. */
  function SelectFundingType(db: Db, uid: int, data: string): (d: Db)
    ensures FundingTypeFromCallback(data).None? ==> d == db
    ensures FundingTypeFromCallback(data).Some? ==>
      d.userData == db.userData[uid := UserDataOf(db, uid).(fundingType := FundingTypeFromCallback(data))]
    ensures d.(userData := db.userData) == db
  {
    match FundingTypeFromCallback(data)
    case None => db
    case Some(t) => db.(userData := db.userData[uid := UserDataOf(db, uid).(fundingType := Some(t))])
  }

  /** The count step stores a count and its cost exactly when all of its checks pass. */
  predicate CountAccepted(db: Db, uid: int, text: string)
    ensures UserDataOf(db, uid).fundingType.None? || !IsDigits(text) || uid !in db.users ==> !CountAccepted(db, uid, text)
    ensures CountAccepted(db, uid, text) ==> db.users[uid].points >= DigitsValue(text) * POINTS_PER_MEMBER >= 0
  {
    UserDataOf(db, uid).fundingType.Some? && IsDigits(text) && uid in db.users
    && db.users[uid].points >= DigitsValue(text) * POINTS_PER_MEMBER
  }

  /**
   * The count step: the text must be digits, the user known and the balance
   * at least the count times the price per member; then the count and its
   * cost are stored. Only the conversation data changes.
   */
  function HandleFundingRequest(db: Db, uid: int, text: string): (d: Db)
    ensures !CountAccepted(db, uid, text) ==> d == db
    ensures CountAccepted(db, uid, text) ==>
      d.userData == db.userData[uid := UserDataOf(db, uid).(
        requestedMembers := Some(DigitsValue(text) as int),
        pointsNeeded := Some(DigitsValue(text) * POINTS_PER_MEMBER))]
    ensures d.(userData := db.userData) == db
  {
    var ud := UserDataOf(db, uid);
    if ud.fundingType.None? then db
    else if !IsDigits(text) then db
    else
      var n := DigitsValue(text);
      if uid !in db.users then db
      else
        var cost := n * POINTS_PER_MEMBER;
        if db.users[uid].points < cost then db
        else db.(userData := db.userData[uid := ud.(requestedMembers := Some(n as int), pointsNeeded := Some(cost))])
  }

  /** A count of zero passes the digit check and is stored with a cost of zero. */
  lemma ZeroCountAccepted(db: Db, uid: int)
    requires UserDataOf(db, uid).fundingType.Some? && uid in db.users && db.users[uid].points >= 0
    ensures UserDataOf(HandleFundingRequest(db, uid, "0"), uid).requestedMembers == Some(0)
    ensures UserDataOf(HandleFundingRequest(db, uid, "0"), uid).pointsNeeded == Some(0)
  {
    assert IsDigits("0");
    assert DigitsValue("0") == 0 by { assert "0"[..0] == ""; }
  }

  /** Any count the balance covers is stored, however far it is above the per-request maximum. */
  lemma CountAboveMaximumAccepted(db: Db, uid: int, n: nat)
    requires n > MAX_MEMBERS_PER_REQUEST
    requires UserDataOf(db, uid).fundingType.Some? && uid in db.users
    requires db.users[uid].points >= n * POINTS_PER_MEMBER
    ensures UserDataOf(HandleFundingRequest(db, uid, NatToString(n)), uid).requestedMembers == Some(n)
  {
    DigitsRoundTrip(n);
  }

  /** The link step creates a request exactly when all of its checks pass. */
  predicate LinkAccepted(db: Db, uid: int, link: string, botIsAdmin: bool)
    ensures uid !in db.users || ExtractChannelId(link).None? || !botIsAdmin ==> !LinkAccepted(db, uid, link, botIsAdmin)
    ensures UserDataOf(db, uid).requestedMembers.None? ==> !LinkAccepted(db, uid, link, botIsAdmin)
  {
    var ud := UserDataOf(db, uid);
    uid in db.users && ud.requestedMembers.Some? && ExtractChannelId(link).Some? && botIsAdmin
    && ud.pointsNeeded.Some? && ud.fundingType.Some?
  }

  /**
   * The link step: with a known user, a stored count, a valid link and the
   * bot an administrator of the target, the stored cost is debited without
   * checking the balance again, one pending request is added under the next
   * id, and the conversation is cleared. Any failed check changes nothing.
   */
  function HandleChannelLink(db: Db, uid: int, link: string, botIsAdmin: bool, now: int): (d: Db)
    ensures !LinkAccepted(db, uid, link, botIsAdmin) ==> d == db
    ensures LinkAccepted(db, uid, link, botIsAdmin) ==>
      var ud := UserDataOf(db, uid);
      var id := db.nextRequestId;
      d.users == db.users[uid := Debit(db.users[uid], ud.pointsNeeded.value)]
      && d.requests == db.requests[id := NewFundingRequest(id, uid, ExtractChannelId(link).value,
                                        ud.fundingType.value, ud.requestedMembers.value, ud.pointsNeeded.value, now)]
      && d.nextRequestId == id + 1
      && d.userData == db.userData[uid := EmptyUserData]
      && d.(users := db.users, requests := db.requests, nextRequestId := db.nextRequestId, userData := db.userData) == db
  {
    var ud := UserDataOf(db, uid);
    if uid !in db.users || ud.requestedMembers.None? then db
    else match ExtractChannelId(link)
      case None => db
      case Some(channel) =>
        if !botIsAdmin then db
        else if ud.pointsNeeded.None? || ud.fundingType.None? then db
        else
          var cost := ud.pointsNeeded.value;
          var id := db.nextRequestId;
          var r := NewFundingRequest(id, uid, channel, ud.fundingType.value, ud.requestedMembers.value, cost, now);
          db.(users := db.users[uid := Debit(db.users[uid], cost)],
              requests := db.requests[id := r],
              nextRequestId := id + 1,
              userData := db.userData[uid := EmptyUserData])
  }

  /** The link step debits the stored cost even when the balance no longer covers it. */
  lemma LinkStepSkipsBalanceCheck(db: Db, uid: int, link: string, now: int)
    requires LinkAccepted(db, uid, link, true)
    requires db.users[uid].points < UserDataOf(db, uid).pointsNeeded.value
    ensures HandleChannelLink(db, uid, link, true, now).users[uid].points < 0
  {
  }

  /**
   * A text message: empty text is ignored; the conversation data picks the
   * count step or the link step; any other text from a subscribed
   * administrator is read as an administrator command.
   */
  function HandleMessage(db: Db, uid: int, text: string, subscribed: bool, botIsAdmin: bool, now: int): (d: Db)
    ensures text == "" ==> d == db
    ensures text != "" && RouteOf(UserDataOf(db, uid)) == CountStep ==> d == HandleFundingRequest(db, uid, text)
    ensures text != "" && RouteOf(UserDataOf(db, uid)) == LinkStep ==> d == HandleChannelLink(db, uid, text, botIsAdmin, now)
    ensures text != "" && RouteOf(UserDataOf(db, uid)) == OtherText && !(subscribed && uid in db.users && db.users[uid].isAdmin) ==> d == db
    ensures text != "" && RouteOf(UserDataOf(db, uid)) == OtherText && subscribed && uid in db.users && db.users[uid].isAdmin
            ==> d == HandleAdminCommands(db, text)
  {
    if text == "" then db
    else match RouteOf(UserDataOf(db, uid))
      case CountStep => HandleFundingRequest(db, uid, text)
      case LinkStep => HandleChannelLink(db, uid, text, botIsAdmin, now)
      case OtherText =>
        if !subscribed then db
        else if uid in db.users && db.users[uid].isAdmin then HandleAdminCommands(db, text)
        else db
  }

  /**
   * The whole funding flow for a user: choosing a type, sending a count the
   * balance covers, then an `@channel` link, debits the count times the price
   * and adds one pending request for that count under the next id.
   */
  lemma FundingFlow(db: Db, uid: int, t: string, n: nat, name: string, t1: int, t2: int)
    requires uid in db.users && uid !in db.userData
    requires '_' !in t
    requires db.users[uid].points >= n * POINTS_PER_MEMBER
    ensures var d1 := SelectFundingType(db, uid, FUNDING_TYPE_PREFIX + t);
      var d2 := HandleMessage(d1, uid, NatToString(n), true, true, t1);
      var d3 := HandleMessage(d2, uid, "@" + name, true, true, t2);
      d3.users[uid].points == db.users[uid].points - n * POINTS_PER_MEMBER
      && d3.requests == db.requests[db.nextRequestId :=
           NewFundingRequest(db.nextRequestId, uid, "@" + name, t, n, n * POINTS_PER_MEMBER, t2)]
      && d3.nextRequestId == db.nextRequestId + 1
      && UserDataOf(d3, uid) == EmptyUserData
  {
    FundingTypeButtons(t);
    var d1 := SelectFundingType(db, uid, FUNDING_TYPE_PREFIX + t);
    assert UserDataOf(d1, uid) == EmptyUserData.(fundingType := Some(t));
    var count := NatToString(n);
    DigitsRoundTrip(n);
    assert CountAccepted(d1, uid, count);
    var d2 := HandleMessage(d1, uid, count, true, true, t1);
    assert UserDataOf(d2, uid).requestedMembers == Some(n);
    assert StartsWith("@" + name, "@");
    assert LinkAccepted(d2, uid, "@" + name, true);
  }

  // ---------------------------------------------------------------- approval

  /** The administrator panel's approve button: only the request changes, whatever its status was. */
  function ApproveStep(db: Db, rid: int, adminId: int, now: int): (d: Db)
    ensures rid !in db.requests ==> d == db
    ensures rid in db.requests ==> d.requests == db.requests[rid := Approve(db.requests[rid], adminId, now)]
    ensures d.(requests := db.requests) == db
  {
    if rid !in db.requests then db
    else db.(requests := db.requests[rid := Approve(db.requests[rid], adminId, now)])
  }

  /**
   * The chat approve button: the approval is followed at once by the
   * placeholder delivery, which marks everything asked for as delivered.
   */
  function ApproveFromChat(db: Db, rid: int, adminId: int, now: int): (d: Db)
    ensures rid !in db.requests ==> d == db
    ensures d.requests.Keys == db.requests.Keys
    ensures rid in db.requests ==>
      d.requests[rid].status == Completed && d.requests[rid].approvedBy == Some(adminId)
      && d.requests[rid].completedMembers == db.requests[rid].requestedMembers
    ensures forall id :: id in db.requests && id != rid ==> d.requests[id] == db.requests[id]
    ensures d.(requests := db.requests) == db
  {
    if rid !in db.requests then db
    else db.(requests := db.requests[rid := CompleteAtOnce(Approve(db.requests[rid], adminId, now), now)])
  }

  /**
   * Rejection, from the chat or the panel: the request's owner, if still
   * known, gets its cost back, whatever the request's status was.
   */
  function RejectStep(db: Db, rid: int, adminId: int, now: int): (d: Db)
    ensures rid !in db.requests ==> d == db
    ensures rid in db.requests ==>
      var r := db.requests[rid];
      d.requests == db.requests[rid := Reject(r, adminId, now)]
      && d.users.Keys == db.users.Keys
      && (forall k :: k in db.users ==>
            d.users[k] == (if k == r.userId then Credit(db.users[k], r.pointsCost) else db.users[k]))
    ensures d.(users := db.users, requests := db.requests) == db
  {
    if rid !in db.requests then db
    else
      var r := db.requests[rid];
      var users := if r.userId in db.users then db.users[r.userId := Credit(db.users[r.userId], r.pointsCost)] else db.users;
      db.(users := users, requests := db.requests[rid := Reject(r, adminId, now)])
  }

  /** Creating a request and then rejecting it gives every user back the balance they had. */
  lemma CreateThenRejectRestoresBalances(db: Db, uid: int, link: string, t1: int, adminId: int, t2: int)
    requires Valid(db) && LinkAccepted(db, uid, link, true)
    ensures RejectStep(HandleChannelLink(db, uid, link, true, t1), db.nextRequestId, adminId, t2).users == db.users
  {
    var d1 := HandleChannelLink(db, uid, link, true, t1);
    var d2 := RejectStep(d1, db.nextRequestId, adminId, t2);
    CreditUndoesDebit(db.users[uid], UserDataOf(db, uid).pointsNeeded.value);
    assert d2.users == d1.users[uid := Credit(d1.users[uid], UserDataOf(db, uid).pointsNeeded.value)];
  }

  /** Nothing stops a second rejection of the same request, and it refunds the cost again. */
  lemma DoubleRejectRefundsTwice(db: Db, rid: int, a1: int, a2: int, t1: int, t2: int)
    requires rid in db.requests && db.requests[rid].userId in db.users
    ensures var owner := db.requests[rid].userId;
      RejectStep(RejectStep(db, rid, a1, t1), rid, a2, t2).users[owner].points
      == db.users[owner].points + 2 * db.requests[rid].pointsCost
  {
  }

  /** A request the chat approval already marked completed is still refunded in full when rejected. */
  lemma RejectAfterCompletionRefunds(db: Db, rid: int, a1: int, a2: int, t1: int, t2: int)
    requires rid in db.requests && db.requests[rid].userId in db.users
    ensures var owner := db.requests[rid].userId;
      var d := RejectStep(ApproveFromChat(db, rid, a1, t1), rid, a2, t2);
      d.users[owner].points == db.users[owner].points + db.requests[rid].pointsCost
      && d.requests[rid].status == Rejected
  {
  }

  /** `approve_request_` and `reject_request_`, written as the action and the common part. */
  const APPROVE_PREFIX := "approve" + "_request_"
  const REJECT_PREFIX := "reject" + "_request_"

  /**
   * The approve and reject buttons sent to administrators in the chat: the
   * request id is read from the callback data, and data that does not hold a
   * number changes nothing. The chat's approval runs the placeholder delivery.
   */
  function AdminButtonStep(db: Db, data: string, adminId: int, now: int): (d: Db)
    ensures StartsWith(data, APPROVE_PREFIX) && RequestIdFromCallback(data).Some? ==>
      d == ApproveFromChat(db, RequestIdFromCallback(data).value, adminId, now)
    ensures !StartsWith(data, APPROVE_PREFIX) && StartsWith(data, REJECT_PREFIX) && RequestIdFromCallback(data).Some? ==>
      d == RejectStep(db, RequestIdFromCallback(data).value, adminId, now)
    ensures RequestIdFromCallback(data).None? || (!StartsWith(data, APPROVE_PREFIX) && !StartsWith(data, REJECT_PREFIX)) ==> d == db
  {
    if StartsWith(data, APPROVE_PREFIX) then
      match RequestIdFromCallback(data)
      case None => db
      case Some(rid) => ApproveFromChat(db, rid, adminId, now)
    else if StartsWith(data, REJECT_PREFIX) then
      match RequestIdFromCallback(data)
      case None => db
      case Some(rid) => RejectStep(db, rid, adminId, now)
    else db
  }

  /**
   * The administrator panel's buttons that change state: the system,
   * transfer and points views add their settings row, with its defaults,
   * when the table has none; then the two toggles, the two input menus, and
   * approve and reject (an approval here leaves the request to the worker).
   * The other panel buttons only show views.
   */
  function PanelCallbackStep(db: Db, uid: int, data: string, now: int): (d: Db)
    ensures d.users.Keys == db.users.Keys && d.userOrder == db.userOrder
    ensures d.groups == db.groups && d.nextRequestId == db.nextRequestId
  {
    if data == "admin_system" then SeedSystemSettings(db, now)
    else if data == "admin_points" then SeedPointsSettings(db, now)
    else if data == "admin_transfer" then SeedSystemSettings(db, now)
    else if data == "toggle_maintenance" then ToggleMaintenanceStep(db, uid, now)
    else if data == "toggle_transfer" then ToggleTransferStep(db, uid, now)
    else if data == "edit_transfer_fee_menu" then EditTransferFeeMenu(db, uid)
    else if data == "edit_maintenance_msg" then EditMaintenanceMsg(db, uid)
    else if StartsWith(data, APPROVE_PREFIX) then
      match RequestIdFromCallback(data)
      case None => db
      case Some(rid) => ApproveStep(db, rid, uid, now)
    else if StartsWith(data, REJECT_PREFIX) then
      match RequestIdFromCallback(data)
      case None => db
      case Some(rid) => RejectStep(db, rid, uid, now)
    else db
  }

  /** Which step each panel button runs; a request button whose id does not parse changes nothing. */
  lemma PanelCallbackDispatch(db: Db, uid: int, data: string, now: int)
    ensures data == "admin_system" || data == "admin_transfer" ==> PanelCallbackStep(db, uid, data, now) == SeedSystemSettings(db, now)
    ensures data == "admin_points" ==> PanelCallbackStep(db, uid, data, now) == SeedPointsSettings(db, now)
    ensures data == "toggle_maintenance" ==> PanelCallbackStep(db, uid, data, now) == ToggleMaintenanceStep(db, uid, now)
    ensures data == "toggle_transfer" ==> PanelCallbackStep(db, uid, data, now) == ToggleTransferStep(db, uid, now)
    ensures data == "edit_transfer_fee_menu" ==> PanelCallbackStep(db, uid, data, now) == EditTransferFeeMenu(db, uid)
    ensures data == "edit_maintenance_msg" ==> PanelCallbackStep(db, uid, data, now) == EditMaintenanceMsg(db, uid)
    ensures StartsWith(data, APPROVE_PREFIX) && RequestIdFromCallback(data).Some? ==>
      PanelCallbackStep(db, uid, data, now) == ApproveStep(db, RequestIdFromCallback(data).value, uid, now)
    ensures StartsWith(data, REJECT_PREFIX) && RequestIdFromCallback(data).Some? ==>
      PanelCallbackStep(db, uid, data, now) == RejectStep(db, RequestIdFromCallback(data).value, uid, now)
    ensures (StartsWith(data, APPROVE_PREFIX) || StartsWith(data, REJECT_PREFIX)) && RequestIdFromCallback(data).None? ==>
      PanelCallbackStep(db, uid, data, now) == db
  {
    if StartsWith(data, APPROVE_PREFIX) || StartsWith(data, REJECT_PREFIX) {
      PanelRequestButtons(db, uid, data, now);
    } else {
      PanelNamedButtons(db, uid, data, now);
    }
  }

  /** Each named panel button runs its own step. */
  lemma PanelNamedButtons(db: Db, uid: int, data: string, now: int)
    ensures data == "admin_system" || data == "admin_transfer" ==> PanelCallbackStep(db, uid, data, now) == SeedSystemSettings(db, now)
    ensures data == "admin_points" ==> PanelCallbackStep(db, uid, data, now) == SeedPointsSettings(db, now)
    ensures data == "toggle_maintenance" ==> PanelCallbackStep(db, uid, data, now) == ToggleMaintenanceStep(db, uid, now)
    ensures data == "toggle_transfer" ==> PanelCallbackStep(db, uid, data, now) == ToggleTransferStep(db, uid, now)
    ensures data == "edit_transfer_fee_menu" ==> PanelCallbackStep(db, uid, data, now) == EditTransferFeeMenu(db, uid)
    ensures data == "edit_maintenance_msg" ==> PanelCallbackStep(db, uid, data, now) == EditMaintenanceMsg(db, uid)
  {
  }

  /** An approve or reject button is none of the named panel buttons. */
  lemma PanelRequestButtons(db: Db, uid: int, data: string, now: int)
    requires StartsWith(data, APPROVE_PREFIX) || StartsWith(data, REJECT_PREFIX)
    ensures PanelCallbackStep(db, uid, data, now) ==
      match RequestIdFromCallback(data)
      case None => db
      case Some(rid) => if StartsWith(data, APPROVE_PREFIX) then ApproveStep(db, rid, uid, now) else RejectStep(db, rid, uid, now)
    ensures !(StartsWith(data, APPROVE_PREFIX) && StartsWith(data, REJECT_PREFIX))
  {
    if StartsWith(data, APPROVE_PREFIX) {
      PrefixFixesChar(data, APPROVE_PREFIX, 0);
      PrefixFixesChar(data, APPROVE_PREFIX, 1);
      assert data[0] == 'a' && data[1] == 'p';
      CharRulesOutPrefix(data, REJECT_PREFIX, 0);
    } else {
      PrefixFixesChar(data, REJECT_PREFIX, 0);
      assert data[0] == 'r';
    }
    assert data != "admin_system" && data != "admin_points" && data != "admin_transfer";
    assert data != "toggle_maintenance" && data != "toggle_transfer";
    assert data != "edit_transfer_fee_menu" && data != "edit_maintenance_msg";
  }

  lemma PrefixFixesChar(data: string, p: string, i: int)
    requires 0 <= i < |p| && StartsWith(data, p)
    ensures i < |data| && data[i] == p[i]
  {
    assert data[..|p|][i] == p[i];
  }

  /** The approve button attached to a request's notification approves that request. */
  lemma ApproveButtonActsOnItsRequest(db: Db, rid: int, adminId: int, now: int)
    ensures AdminButtonStep(db, APPROVE_PREFIX + IntToString(rid), adminId, now) == ApproveFromChat(db, rid, adminId, now)
    ensures PanelCallbackStep(db, adminId, APPROVE_PREFIX + IntToString(rid), now) == ApproveStep(db, rid, adminId, now)
  {
    var s := IntToString(rid);
    var a := APPROVE_PREFIX + s;
    RequestButtonsRoundTrip("approve", rid);
    assert a[..|APPROVE_PREFIX|] == APPROVE_PREFIX;
    PanelRequestButtons(db, adminId, a, now);
  }

  /** The reject button attached to a request's notification rejects that request. */
  lemma RejectButtonActsOnItsRequest(db: Db, rid: int, adminId: int, now: int)
    ensures AdminButtonStep(db, REJECT_PREFIX + IntToString(rid), adminId, now) == RejectStep(db, rid, adminId, now)
    ensures PanelCallbackStep(db, adminId, REJECT_PREFIX + IntToString(rid), now) == RejectStep(db, rid, adminId, now)
  {
    var s := IntToString(rid);
    var r := REJECT_PREFIX + s;
    RequestButtonsRoundTrip("reject", rid);
    assert r[..|REJECT_PREFIX|] == REJECT_PREFIX;
    PrefixFixesChar(r, REJECT_PREFIX, 0);
    CharRulesOutPrefix(r, APPROVE_PREFIX, 0);
    assert !StartsWith(r, APPROVE_PREFIX);
    PanelRequestButtons(db, adminId, r, now);
  }

  // ---------------------------------------------------------------- administrator commands

  /** `/add_admin <who> ...` names `<who>`, its `@` dropped; further words are ignored. */
  lemma ParseAddAdmin(who: string, rest: seq<string>)
    requires |who| > 0 && NoSpace(who)
    requires forall k :: 0 <= k < |rest| ==> |rest[k]| > 0 && NoSpace(rest[k])
    ensures ParseCommand(Join([ADD_ADMIN_COMMAND, who] + rest, " ")) == AddAdmin(RemoveChar(who, '@'))
  {
    var ws := [ADD_ADMIN_COMMAND, who] + rest;
    forall k | 1 <= k < |ws| ensures |ws[k]| > 0 && NoSpace(ws[k]) {
      if k > 1 {
        assert ws[k] == rest[k - 2];
      }
    }
    CommandLine(ws);
  }

  /** `/ban <who> <reason...>` names `<who>`, its `@` dropped, and the reason words joined by spaces. */
  lemma ParseBan(who: string, reason: seq<string>)
    requires |who| > 0 && NoSpace(who) && |reason| > 0
    requires forall k :: 0 <= k < |reason| ==> |reason[k]| > 0 && NoSpace(reason[k])
    ensures ParseCommand(Join([BAN_COMMAND, who] + reason, " ")) == Ban(RemoveChar(who, '@'), Join(reason, " "))
  {
    var ws := [BAN_COMMAND, who] + reason;
    forall k | 1 <= k < |ws| ensures |ws[k]| > 0 && NoSpace(ws[k]) {
      if k > 1 {
        assert ws[k] == reason[k - 2];
      }
    }
    CommandLine(ws);
    assert ws[2..] == reason;
    CommandWordsDiffer();
    NotPrefixOfLine(ws, ADD_ADMIN_COMMAND, 1);
  }

  /**
   * `/add_points <who> <amount> ...` names `<who>`, its `@` dropped, and the
   * amount when it reads as a number, otherwise it is no command; further
   * words are ignored.
   */
  lemma ParseAddPointsWords(who: string, amount: string, rest: seq<string>)
    requires |who| > 0 && NoSpace(who) && |amount| > 0 && NoSpace(amount)
    requires forall k :: 0 <= k < |rest| ==> |rest[k]| > 0 && NoSpace(rest[k])
    ensures ParseCommand(Join([ADD_POINTS_COMMAND, who, amount] + rest, " ")) ==
      match ParseInt(amount)
      case None => NoCommand
      case Some(n) => AddPoints(RemoveChar(who, '@'), n)
  {
    var ws := [ADD_POINTS_COMMAND, who, amount] + rest;
    forall k | 1 <= k < |ws| ensures |ws[k]| > 0 && NoSpace(ws[k]) {
      if k == 1 {
        assert ws[k] == who;
      } else if k == 2 {
        assert ws[k] == amount;
      } else {
        assert ws[k] == rest[k - 3];
      }
    }
    CommandLine(ws);
    CommandWordsDiffer();
    NotPrefixOfLine(ws, ADD_ADMIN_COMMAND, 5);
    NotPrefixOfLine(ws, BAN_COMMAND, 1);
  }

  /** `/add_points <who> <n> ...` with a written number `n` credits `n` to `<who>`, its `@` dropped. */
  lemma ParseAddPoints(who: string, n: int, rest: seq<string>)
    requires |who| > 0 && NoSpace(who)
    requires forall k :: 0 <= k < |rest| ==> |rest[k]| > 0 && NoSpace(rest[k])
    ensures ParseCommand(Join([ADD_POINTS_COMMAND, who, IntToString(n)] + rest, " ")) == AddPoints(RemoveChar(who, '@'), n)
  {
    ParseAddPointsWords(who, IntToString(n), rest);
    ParseIntRoundTrip(n);
  }

  /** A command line: its words split back apart, and it starts with its command word. */
  lemma CommandLine(ws: seq<string>)
    requires |ws| >= 2 && ws[0] in {ADD_ADMIN_COMMAND, BAN_COMMAND, ADD_POINTS_COMMAND}
    requires forall k :: 1 <= k < |ws| ==> |ws[k]| > 0 && NoSpace(ws[k])
    ensures Words(Join(ws, " ")) == ws
    ensures StartsWith(Join(ws, " "), ws[0])
  {
    CommandWordsHaveNoSpace();
    assert [ws[0]] + ws[1..] == ws;
    WordsOfCommand(ws[0], ws[1..]);
    JoinStartsWithFirst(ws[0], ws[1..]);
  }

  /** A line does not start with a word that differs from its first word within both. */
  lemma NotPrefixOfLine(ws: seq<string>, other: string, i: int)
    requires |ws| >= 2 && 0 <= i < |ws[0]| && i < |other| && ws[0][i] != other[i]
    ensures !StartsWith(Join(ws, " "), other)
  {
    var text := Join(ws, " ");
    assert [ws[0]] + ws[1..] == ws;
    JoinStartsWithFirst(ws[0], ws[1..]);
    assert text[i] == text[..|ws[0]|][i] == ws[0][i];
    CharRulesOutPrefix(text, other, i);
  }

  /** No user listed before position `i` of `order` has the given username. */
  predicate NoneBefore(order: seq<int>, users: map<int, User>, name: string, i: int) {
    forall j :: 0 <= j < i && j < |order| && order[j] in users ==> users[order[j]].username != Some(name)
  }

  /** The first user, in row order, with the given username. */
  function FirstWithUsername(order: seq<int>, users: map<int, User>, name: string): (r: Option<int>)
    ensures r.Some? ==> r.value in users && users[r.value].username == Some(name)
    ensures r.Some? ==> exists i :: 0 <= i < |order| && order[i] == r.value && NoneBefore(order, users, name, i)
    ensures r.None? ==> forall k :: k in order && k in users ==> users[k].username != Some(name)
  {
    if |order| == 0 then None
    else if order[0] in users && users[order[0]].username == Some(name) then
      assert NoneBefore(order, users, name, 0);
      Some(order[0])
    else
      var r := FirstWithUsername(order[1..], users, name);
      if r.Some? then
        var i :| 0 <= i < |order[1..]| && order[1..][i] == r.value && NoneBefore(order[1..], users, name, i);
        assert order[i + 1] == r.value && NoneBefore(order, users, name, i + 1);
        r
      else r
  }

  /** The user a command names: by id when the name is all digits, by username otherwise. */
  function FindTarget(db: Db, target: string): (r: Option<int>)
    ensures r.Some? ==> r.value in db.users
    ensures IsDigits(target) ==> r == (if DigitsValue(target) as int in db.users then Some(DigitsValue(target) as int) else None)
    ensures !IsDigits(target) && r.Some? ==> db.users[r.value].username == Some(target)
    ensures !IsDigits(target) && r.Some? ==>
      exists i :: 0 <= i < |db.userOrder| && db.userOrder[i] == r.value && NoneBefore(db.userOrder, db.users, target, i)
    ensures !IsDigits(target) && r.None? ==>
      forall k :: k in db.userOrder && k in db.users ==> db.users[k].username != Some(target)
  {
    if IsDigits(target) then
      var id := DigitsValue(target) as int;
      if id in db.users then Some(id) else None
    else FirstWithUsername(db.userOrder, db.users, target)
  }

  /** Carrying out a command on its target user; an unknown target changes nothing. */
  function ApplyCommand(db: Db, c: Command): (d: Db)
    ensures d.(users := db.users) == db && d.users.Keys == db.users.Keys
    ensures c.NoCommand? || FindTarget(db, c.target).None? ==> d == db
    ensures !c.NoCommand? && FindTarget(db, c.target).Some? ==>
      var k := FindTarget(db, c.target).value;
      var u := db.users[k];
      (forall j :: j in db.users && j != k ==> d.users[j] == db.users[j])
      && d.users[k] == (match c
           case AddAdmin(_) => u.(isAdmin := true)
           case Ban(_, reason) => u.(isBanned := true, banReason := Some(reason))
           case AddPoints(_, amount) => Credit(u, amount)
           case NoCommand => u)
  {
    if c.NoCommand? then db
    else match FindTarget(db, c.target)
      case None => db
      case Some(k) =>
        var u := db.users[k];
        var u' := match c
          case AddAdmin(_) => u.(isAdmin := true)
          case Ban(_, reason) => u.(isBanned := true, banReason := Some(reason))
          case AddPoints(_, amount) => Credit(u, amount)
          case NoCommand => u;
        db.(users := db.users[k := u'])
  }

  /** The administrator commands in a text message; only the named user's row can change. */
  function HandleAdminCommands(db: Db, text: string): (d: Db)
    ensures d.(users := db.users) == db && d.users.Keys == db.users.Keys
    ensures forall j :: j in db.users && Some(j) != (if ParseCommand(text).NoCommand? then None else FindTarget(db, ParseCommand(text).target))
              ==> d.users[j] == db.users[j]
  {
    ApplyCommand(db, ParseCommand(text))
  }

  /** `/add_points` takes any amount, negative ones included, and adds exactly that amount. */
  lemma AddPointsCreditsExactly(db: Db, text: string)
    requires ParseCommand(text).AddPoints? && FindTarget(db, ParseCommand(text).target).Some?
    ensures var k := FindTarget(db, ParseCommand(text).target).value;
      HandleAdminCommands(db, text).users[k].points == db.users[k].points + ParseCommand(text).amount
  {
  }

  // ---------------------------------------------------------------- system settings

  /** The maintenance toggle; without a settings row nothing changes. */
  function ToggleMaintenanceStep(db: Db, adminId: int, now: int): (d: Db)
    ensures db.system.None? ==> d == db
    ensures db.system.Some? ==> d.system == Some(ToggleMaintenance(db.system.value, adminId, now))
    ensures d.(system := db.system) == db
  {
    match db.system
    case None => db
    case Some(s) => db.(system := Some(ToggleMaintenance(s, adminId, now)))
  }

  /** The transfer toggle; without a settings row nothing changes. */
  function ToggleTransferStep(db: Db, adminId: int, now: int): (d: Db)
    ensures db.system.None? ==> d == db
    ensures db.system.Some? ==> d.system == Some(ToggleTransfer(db.system.value, adminId, now))
    ensures d.(system := db.system) == db
  {
    match db.system
    case None => db
    case Some(s) => db.(system := Some(ToggleTransfer(s, adminId, now)))
  }

  /** Pressing a toggle twice restores its setting. */
  lemma TogglesTwiceRestore(db: Db, a1: int, a2: int, t1: int, t2: int)
    requires db.system.Some?
    ensures ToggleMaintenanceStep(ToggleMaintenanceStep(db, a1, t1), a2, t2).system.value.maintenanceMode
            == db.system.value.maintenanceMode
    ensures ToggleTransferStep(ToggleTransferStep(db, a1, t1), a2, t2).system.value.transferEnabled
            == db.system.value.transferEnabled
  {
  }

  /** The fee menu: the next text from this user is read as the new fee. */
  function EditTransferFeeMenu(db: Db, uid: int): (d: Db)
    ensures UserDataOf(d, uid) == UserDataOf(db, uid).(awaitingTransferFee := true)
    ensures forall v :: v != uid ==> UserDataOf(d, v) == UserDataOf(db, v)
    ensures d.(userData := db.userData) == db
  {
    db.(userData := db.userData[uid := UserDataOf(db, uid).(awaitingTransferFee := true)])
  }

  /** The maintenance message menu: the next text from this user is read as the new message. */
  function EditMaintenanceMsg(db: Db, uid: int): (d: Db)
    ensures UserDataOf(d, uid) == UserDataOf(db, uid).(awaitingMaintenanceMsg := true)
    ensures forall v :: v != uid ==> UserDataOf(d, v) == UserDataOf(db, v)
    ensures d.(userData := db.userData) == db
  {
    db.(userData := db.userData[uid := UserDataOf(db, uid).(awaitingMaintenanceMsg := true)])
  }

  predicate IsAdmin(db: Db, uid: int) {
    uid in db.users && db.users[uid].isAdmin
  }

  /**
   * Text from an administrator awaiting an input. A fee must be a number from
   * 0 to 50: anything else keeps the flag and the settings. A maintenance
   * message must be non-blank after stripping. An accepted input is written
   * to the settings row, if there is one, and the flag is removed. Text from
   * anybody but a known administrator changes nothing.
   */
  function HandleAdminInput(db: Db, uid: int, raw: string, now: int): (d: Db)
    ensures !IsAdmin(db, uid) ==> d == db
    ensures d.(system := db.system, userData := db.userData) == db
    ensures IsAdmin(db, uid) && UserDataOf(db, uid).awaitingTransferFee ==>
      match DecideFee(Strip(raw))
      case Accept(fee) =>
        d.system == (if db.system.Some? then Some(SetTransferFee(db.system.value, fee, uid, now)) else None)
        && d.userData == db.userData[uid := UserDataOf(db, uid).(awaitingTransferFee := false)]
      case _ => d == db
    ensures IsAdmin(db, uid) && !UserDataOf(db, uid).awaitingTransferFee && UserDataOf(db, uid).awaitingMaintenanceMsg ==>
      match MaintenanceMessageInput(raw)
      case Some(msg) =>
        d.system == (if db.system.Some? then Some(SetMaintenanceMessage(db.system.value, msg, uid, now)) else None)
        && d.userData == db.userData[uid := UserDataOf(db, uid).(awaitingMaintenanceMsg := false)]
      case None => d == db
    ensures !UserDataOf(db, uid).awaitingTransferFee && !UserDataOf(db, uid).awaitingMaintenanceMsg ==> d == db
  {
    if !IsAdmin(db, uid) then db
    else if UserDataOf(db, uid).awaitingTransferFee then FeeInput(db, uid, Strip(raw), now)
    else if UserDataOf(db, uid).awaitingMaintenanceMsg then MaintenanceMessageStep(db, uid, raw, now)
    else db
  }

  /** The fee input: an accepted fee is written to the settings row, if any, and ends the wait. */
  function FeeInput(db: Db, uid: int, text: string, now: int): (d: Db)
    ensures ParseInt(text).None? ==> d == db
    ensures ParseInt(text).Some? && !(0 <= ParseInt(text).value <= MAX_TRANSFER_FEE_PERCENT) ==> d == db
    ensures ParseInt(text).Some? && 0 <= ParseInt(text).value <= MAX_TRANSFER_FEE_PERCENT ==>
      !UserDataOf(d, uid).awaitingTransferFee
      && d.system.Some? == db.system.Some?
      && (db.system.Some? ==> d.system.value == SetTransferFee(db.system.value, ParseInt(text).value, uid, now))
    ensures d.(system := db.system, userData := db.userData) == db
    ensures forall k :: k != uid ==> UserDataOf(d, k) == UserDataOf(db, k)
  {
    match DecideFee(text)
    case Accept(fee) =>
      var system := match db.system
        case None => None
        case Some(s) => Some(SetTransferFee(s, fee, uid, now));
      db.(system := system, userData := db.userData[uid := UserDataOf(db, uid).(awaitingTransferFee := false)])
    case _ => db
  }

  /** The maintenance message input: a non-blank message is written to the settings row, if any, and ends the wait. */
  function MaintenanceMessageStep(db: Db, uid: int, raw: string, now: int): (d: Db)
    ensures (forall i :: 0 <= i < |raw| ==> IsSpace(raw[i])) ==> d == db
    ensures Strip(raw) != [] ==>
      !UserDataOf(d, uid).awaitingMaintenanceMsg
      && d.system.Some? == db.system.Some?
      && (db.system.Some? ==> d.system.value == SetMaintenanceMessage(db.system.value, Strip(raw), uid, now))
    ensures d.(system := db.system, userData := db.userData) == db
    ensures forall k :: k != uid ==> UserDataOf(d, k) == UserDataOf(db, k)
  {
    match MaintenanceMessageInput(raw)
    case None => db
    case Some(msg) =>
      var system := match db.system
        case None => None
        case Some(s) => Some(SetMaintenanceMessage(s, msg, uid, now));
      db.(system := system, userData := db.userData[uid := UserDataOf(db, uid).(awaitingMaintenanceMsg := false)])
  }

  /** Sending a fee in range after opening the fee menu sets the fee and ends the wait. */
  lemma FeeMenuThenValidFee(db: Db, uid: int, fee: int, now: int)
    requires IsAdmin(db, uid) && db.system.Some?
    requires 0 <= fee <= MAX_TRANSFER_FEE_PERCENT
    ensures var d := HandleAdminInput(EditTransferFeeMenu(db, uid), uid, IntToString(fee), now);
      d.system.value.transferFeePercent == fee && !UserDataOf(d, uid).awaitingTransferFee
  {
    EveryValidFeeAccepted(fee);
  }

  /** A fee out of range leaves the settings alone and keeps waiting for a fee. */
  lemma FeeOutOfRangeKeepsWaiting(db: Db, uid: int, fee: int, now: int)
    requires IsAdmin(db, uid)
    requires fee < 0 || fee > MAX_TRANSFER_FEE_PERCENT
    ensures var d := HandleAdminInput(EditTransferFeeMenu(db, uid), uid, IntToString(fee), now);
      d == EditTransferFeeMenu(db, uid) && UserDataOf(d, uid).awaitingTransferFee
  {
    OutOfRangeFeeRefused(fee);
  }

  // ---------------------------------------------------------------- seeding

  /** The system settings row, added with its defaults when the table is empty; an existing row is kept. */
  function SeedSystemSettings(db: Db, now: int): (d: Db)
    ensures d.system.Some?
    ensures db.system.Some? ==> d == db
    ensures db.system.None? ==> d == db.(system := Some(DefaultSystemSettings(now)))
  {
    if db.system.Some? then db else db.(system := Some(DefaultSystemSettings(now)))
  }

  /** The points settings row, added with its defaults when the table is empty; an existing row is kept. */
  function SeedPointsSettings(db: Db, now: int): (d: Db)
    ensures d.pointsSettings.Some?
    ensures db.pointsSettings.Some? ==> d == db
    ensures db.pointsSettings.None? ==> d == db.(pointsSettings := Some(DefaultPointsSettings(now)))
  {
    if db.pointsSettings.Some? then db else db.(pointsSettings := Some(DefaultPointsSettings(now)))
  }

  /**
   * Database initialisation: each settings table gets its default row when
   * it is empty, and the bootstrap administrator is added when missing.
   */
  function InitDatabase(db: Db, now: int): (d: Db)
    ensures d.system == (if db.system.Some? then db.system else Some(DefaultSystemSettings(now)))
    ensures d.pointsSettings == (if db.pointsSettings.Some? then db.pointsSettings else Some(DefaultPointsSettings(now)))
    ensures BOOTSTRAP_ADMIN_ID in db.users ==> d.users == db.users && d.userOrder == db.userOrder
    ensures BOOTSTRAP_ADMIN_ID !in db.users ==>
      d.users == db.users[BOOTSTRAP_ADMIN_ID := BootstrapAdmin(now)] && d.userOrder == db.userOrder + [BOOTSTRAP_ADMIN_ID]
    ensures d.(users := db.users, userOrder := db.userOrder, system := db.system, pointsSettings := db.pointsSettings) == db
  {
    var d1 := SeedPointsSettings(SeedSystemSettings(db, now), now);
    if BOOTSTRAP_ADMIN_ID in db.users then d1
    else d1.(users := db.users[BOOTSTRAP_ADMIN_ID := BootstrapAdmin(now)], userOrder := db.userOrder + [BOOTSTRAP_ADMIN_ID])
  }

  /** Initialising twice adds nothing the first run did not add. */
  lemma InitDatabaseIdempotent(db: Db, t1: int, t2: int)
    ensures InitDatabase(InitDatabase(db, t1), t2) == InitDatabase(db, t1)
  {
  }

  /** Initialisation keeps the store valid and leaves the bootstrap administrator an administrator if it added it. */
  lemma InitDatabaseKeepsValid(db: Db, now: int)
    requires Valid(db)
    ensures Valid(InitDatabase(db, now))
    ensures BOOTSTRAP_ADMIN_ID !in db.users ==> IsAdmin(InitDatabase(db, now), BOOTSTRAP_ADMIN_ID)
  {
  }

  // ---------------------------------------------------------------- delivery worker

  /** What Telegram answers, per request and source group id: the listed members and their add outcomes. */
  type Gateway = map<(int, string), seq<Candidate>>

  /** A listing that is not in the gateway is one whose fetch failed: it lists nobody. */
  function Listing(gw: Gateway, rid: int, groupId: string): (l: seq<Candidate>)
    ensures (rid, groupId) !in gw ==> l == []
    ensures (rid, groupId) in gw ==> l == gw[(rid, groupId)]
  {
    if (rid, groupId) in gw then gw[(rid, groupId)] else []
  }

  /** The listings of the active source groups, in table order. */
  function ActiveListings(groups: seq<GroupSource>, gw: Gateway, rid: int): (ls: seq<seq<Candidate>>)
    ensures |ls| <= |groups|
    ensures (forall i :: 0 <= i < |groups| ==> !groups[i].isActive) ==> ls == []
    ensures (forall i :: 0 <= i < |groups| ==> groups[i].isActive) ==> |ls| == |groups|
  {
    if |groups| == 0 then []
    else (if groups[0].isActive then [Listing(gw, rid, groups[0].groupId)] else []) + ActiveListings(groups[1..], gw, rid)
  }

  /** A group added at the end of the table is asked last, and only if it is active. */
  lemma {:induction false} ActiveListingsAppend(groups: seq<GroupSource>, g: GroupSource, gw: Gateway, rid: int)
    ensures ActiveListings(groups + [g], gw, rid)
            == ActiveListings(groups, gw, rid) + (if g.isActive then [Listing(gw, rid, g.groupId)] else [])
    decreases |groups|
  {
    if |groups| == 0 {
      assert ([] + [g])[1..] == [];
      assert [] + [g] == [g];
    } else {
      assert (groups + [g])[0] == groups[0];
      assert (groups + [g])[1..] == groups[1..] + [g];
      ActiveListingsAppend(groups[1..], g, gw, rid);
    }
  }

  /** A group that Telegram does not list for the request yields nobody, however many are asked for. */
  lemma FailedFetchYieldsNothing(gw: Gateway, rid: int, groupId: string, max: int)
    requires (rid, groupId) !in gw
    ensures GroupYield(Listing(gw, rid, groupId), max) == 0
  {
    EmptyListingYieldsNothing(max);
  }

  /** With no active source group, an attempted request fails with nothing delivered. */
  lemma NoActiveGroupFails(db: Db, rid: int, gw: Gateway, now: int)
    requires rid in db.requests && db.requests[rid].status == Approved && db.requests[rid].userId in db.users
    requires forall i :: 0 <= i < |db.groups| ==> !db.groups[i].isActive
    ensures Processed(db, rid, gw, now).status == Failed
    ensures Processed(db, rid, gw, now).completedMembers == 0
  {
  }

  /**
   * A request after one delivery attempt: only an approved request whose
   * owner is known is attempted, and it ends with the count delivered by
   * the active groups.
   */
  function Processed(db: Db, rid: int, gw: Gateway, now: int): (r: FundingRequest)
    requires rid in db.requests
    ensures var q := db.requests[rid];
      if q.status == Approved && q.userId in db.users then
        r.completedMembers <= Max(q.requestedMembers, 0)
        && (r.status == Completed <==> r.completedMembers > 0)
        && (r.status == Failed <==> r.completedMembers == 0)
        && r == Finish(q, ChannelTotal(ActiveListings(db.groups, gw, rid), q.requestedMembers), now)
      else r == q
  {
    var q := db.requests[rid];
    if q.status == Approved && q.userId in db.users then
      var added := ChannelTotal(ActiveListings(db.groups, gw, rid), q.requestedMembers);
      ChannelTotalBounded(ActiveListings(db.groups, gw, rid), q.requestedMembers);
      Finish(q, added, now)
    else q
  }

  /** One delivery run for one request; only that request can change. */
  function AddMembersToChannelStep(db: Db, rid: int, gw: Gateway, now: int): (d: Db)
    ensures rid !in db.requests ==> d == db
    ensures rid in db.requests ==> d.requests == db.requests[rid := Processed(db, rid, gw, now)]
    ensures d.(requests := db.requests) == db
  {
    if rid !in db.requests then db
    else db.(requests := db.requests[rid := Processed(db, rid, gw, now)])
  }

  /** A second run on the same request changes nothing: the first one left it no longer approved or left it alone. */
  lemma AddMembersOnlyOnce(db: Db, rid: int, gw: Gateway, t1: int, t2: int)
    ensures var d := AddMembersToChannelStep(db, rid, gw, t1);
      AddMembersToChannelStep(d, rid, gw, t2) == d
  {
  }

  /** A delivery run reads the request's own row, the users and the groups, and nothing else. */
  lemma ProcessedReadsItsOwnRow(d1: Db, d2: Db, rid: int, gw: Gateway, now: int)
    requires rid in d1.requests && rid in d2.requests && d1.requests[rid] == d2.requests[rid]
    requires d1.users == d2.users && d1.groups == d2.groups
    ensures Processed(d1, rid, gw, now) == Processed(d2, rid, gw, now)
  {
  }

  /**
   * One cycle of the worker: every request approved when the cycle starts
   * gets one delivery run. Runs on different requests do not affect each
   * other, so the cycle is the runs' combined result.
   */
  function Cycle(db: Db, gw: Gateway, now: int): (d: Db)
    ensures d.(requests := db.requests) == db
    ensures d.requests.Keys == db.requests.Keys
  {
    db.(requests := map id | id in db.requests :: Processed(db, id, gw, now))
  }

  /** The requests part-way through a cycle run in id order: the ids below `k` have had their run. */
  function ProcessedBelow(db: Db, k: int, gw: Gateway, now: int): map<int, FundingRequest> {
    map id | id in db.requests :: if id < k then Processed(db, id, gw, now) else db.requests[id]
  }

  /** Before the first run nothing has changed, since every id is at least 1. */
  lemma ProcessedBelowAtStart(db: Db, gw: Gateway, now: int)
    requires Valid(db)
    ensures ProcessedBelow(db, 1, gw, now) == db.requests
  {
  }

  /** The run for id `k` takes the cycle one id further; an id with no request is skipped. */
  lemma ProcessedBelowStep(db: Db, k: int, gw: Gateway, now: int)
    ensures k in db.requests ==>
      ProcessedBelow(db, k, gw, now)[k := Processed(db, k, gw, now)] == ProcessedBelow(db, k + 1, gw, now)
    ensures k !in db.requests ==> ProcessedBelow(db, k, gw, now) == ProcessedBelow(db, k + 1, gw, now)
  {
  }

  /** A delivery run for id `k` part-way through a cycle is the cycle's next step. */
  lemma RunAdvancesCycle(db: Db, k: int, gw: Gateway, now: int)
    ensures AddMembersToChannelStep(db.(requests := ProcessedBelow(db, k, gw, now)), k, gw, now)
            == db.(requests := ProcessedBelow(db, k + 1, gw, now))
  {
    var d := db.(requests := ProcessedBelow(db, k, gw, now));
    ProcessedBelowStep(db, k, gw, now);
    if k in db.requests {
      ProcessedReadsItsOwnRow(d, db, k, gw, now);
    }
  }

  /** Past the last id handed out, every request has had its run. */
  lemma ProcessedBelowAtEnd(db: Db, gw: Gateway, now: int)
    requires Valid(db)
    ensures db.(requests := ProcessedBelow(db, db.nextRequestId, gw, now)) == Cycle(db, gw, now)
  {
  }

  /**
   * After a cycle no approved request with a known owner is still approved,
   * no request got more than it asked for, and no balance moved: a request
   * that failed is not refunded.
   */
  lemma CycleSettlesApproved(db: Db, gw: Gateway, now: int)
    ensures var d := Cycle(db, gw, now);
      d.users == db.users
      && forall id :: id in db.requests && db.requests[id].status == Approved && db.requests[id].userId in db.users ==>
           d.requests[id].status in {Completed, Failed}
           && d.requests[id].completedMembers <= Max(db.requests[id].requestedMembers, 0)
  {
  }

  /** A cycle leaves requests that were not approved untouched. */
  lemma CycleLeavesOthers(db: Db, gw: Gateway, now: int, id: int)
    requires id in db.requests && db.requests[id].status != Approved
    ensures Cycle(db, gw, now).requests[id] == db.requests[id]
  {
  }

  // ---------------------------------------------------------------- invariants

  /** Registration adds a row under the user's own id and records it in row order. */
  lemma StartKeepsValid(db: Db, uid: int, username: Option<string>, firstName: Option<string>,
                        lastName: Option<string>, args: seq<string>, subscribed: bool, now: int)
    requires Valid(db)
    ensures Valid(Start(db, uid, username, firstName, lastName, args, subscribed, now))
  {
    if subscribed && uid !in db.users {
      var d1 := Register(db, uid, username, firstName, lastName, now);
      assert Valid(d1);
      var d := CreditReferral(d1, uid, args, now);
      assert forall k :: k in d.userOrder <==> k in d.users;
    }
  }

  /** Registering a new user keeps the store valid. */
  lemma RegisterKeepsValid(db: Db, uid: int, username: Option<string>, firstName: Option<string>,
                           lastName: Option<string>, now: int)
    requires Valid(db) && uid !in db.users
    ensures Valid(Register(db, uid, username, firstName, lastName, now))
  {
  }

  /** The referral keeps the store valid: it adds no user and re-keys none. */
  lemma ReferByKeepsValid(db: Db, uid: int, referrer: Option<int>, now: int)
    requires Valid(db) && uid in db.users
    ensures Valid(ReferBy(db, uid, referrer, now))
  {
    var d := ReferBy(db, uid, referrer, now);
    assert forall k :: k in d.userOrder <==> k in d.users;
  }

  /** One delivery run keeps the store valid: the request stays under its own id. */
  lemma AddMembersKeepsValid(db: Db, rid: int, gw: Gateway, now: int)
    requires Valid(db)
    ensures Valid(AddMembersToChannelStep(db, rid, gw, now))
  {
  }

  /** A new request takes the next id, which no request has yet. */
  lemma LinkKeepsValid(db: Db, uid: int, link: string, botIsAdmin: bool, now: int)
    requires Valid(db)
    ensures Valid(HandleChannelLink(db, uid, link, botIsAdmin, now))
  {
  }

  /** Administrator commands only change fields of existing rows. */
  lemma CommandsKeepValid(db: Db, text: string)
    requires Valid(db)
    ensures Valid(HandleAdminCommands(db, text))
  {
    var c := ParseCommand(text);
    if !c.NoCommand? && FindTarget(db, c.target).Some? {
      var k := FindTarget(db, c.target).value;
      assert HandleAdminCommands(db, text).users[k].userId == k;
    }
  }

  /** A text message keeps the store valid, whichever step it is routed to. */
  lemma MessageKeepsValid(db: Db, uid: int, text: string, subscribed: bool, botIsAdmin: bool, now: int)
    requires Valid(db)
    ensures Valid(HandleMessage(db, uid, text, subscribed, botIsAdmin, now))
  {
    LinkKeepsValid(db, uid, text, botIsAdmin, now);
    CommandsKeepValid(db, text);
  }

  /** Approvals, rejections and a worker cycle change requests in place and keep their ids. */
  lemma RequestStepsKeepValid(db: Db, rid: int, adminId: int, gw: Gateway, now: int)
    requires Valid(db)
    ensures Valid(ApproveStep(db, rid, adminId, now))
    ensures Valid(ApproveFromChat(db, rid, adminId, now))
    ensures Valid(RejectStep(db, rid, adminId, now))
    ensures Valid(Cycle(db, gw, now))
  {
    ApproveKeepsValid(db, rid, adminId, now);
    ApproveFromChatKeepsValid(db, rid, adminId, now);
    RejectKeepsValid(db, rid, adminId, now);
    CycleKeepsValid(db, gw, now);
  }

  lemma ApproveKeepsValid(db: Db, rid: int, adminId: int, now: int)
    requires Valid(db)
    ensures Valid(ApproveStep(db, rid, adminId, now))
  {
  }

  lemma ApproveFromChatKeepsValid(db: Db, rid: int, adminId: int, now: int)
    requires Valid(db)
    ensures Valid(ApproveFromChat(db, rid, adminId, now))
  {
  }

  lemma RejectKeepsValid(db: Db, rid: int, adminId: int, now: int)
    requires Valid(db)
    ensures Valid(RejectStep(db, rid, adminId, now))
  {
  }

  /** A worker cycle rewrites requests in place, so every id stays where it was. */
  lemma CycleKeepsValid(db: Db, gw: Gateway, now: int)
    requires Valid(db)
    ensures Valid(Cycle(db, gw, now))
  {
    var d := Cycle(db, gw, now);
    forall id | id in d.requests ensures d.requests[id].id == id && 1 <= id < d.nextRequestId {
      assert d.requests[id] == Processed(db, id, gw, now);
    }
  }

  /** The count step keeps a well-formed conversation well formed. */
  lemma CountStepKeepsWellFormed(db: Db, uid: int, text: string)
    requires ConversationsWellFormed(db)
    ensures ConversationsWellFormed(HandleFundingRequest(db, uid, text))
  {
    assert WellFormed(UserDataOf(db, uid));
  }

  /** Every text message keeps each conversation well formed. */
  lemma MessageKeepsWellFormed(db: Db, uid: int, text: string, subscribed: bool, botIsAdmin: bool, now: int)
    requires ConversationsWellFormed(db)
    ensures ConversationsWellFormed(HandleMessage(db, uid, text, subscribed, botIsAdmin, now))
  {
    CountStepKeepsWellFormed(db, uid, text);
  }

  /** The funding type button and the two input menus keep each conversation well formed. */
  lemma ButtonsKeepWellFormed(db: Db, uid: int, data: string)
    requires ConversationsWellFormed(db)
    ensures ConversationsWellFormed(SelectFundingType(db, uid, data))
    ensures ConversationsWellFormed(EditTransferFeeMenu(db, uid))
    ensures ConversationsWellFormed(EditMaintenanceMsg(db, uid))
  {
    assert WellFormed(UserDataOf(db, uid));
  }

  /** Administrator input only clears a waiting flag, which keeps each conversation well formed. */
  lemma AdminInputKeepsWellFormed(db: Db, uid: int, text: string, now: int)
    requires ConversationsWellFormed(db)
    ensures ConversationsWellFormed(HandleAdminInput(db, uid, text, now))
  {
    if IsAdmin(db, uid) && UserDataOf(db, uid).awaitingTransferFee {
      FeeInputKeepsWellFormed(db, uid, Strip(text), now);
    } else if IsAdmin(db, uid) && UserDataOf(db, uid).awaitingMaintenanceMsg {
      MaintenanceMessageKeepsWellFormed(db, uid, text, now);
    }
  }

  lemma FeeInputKeepsWellFormed(db: Db, uid: int, text: string, now: int)
    requires ConversationsWellFormed(db)
    ensures ConversationsWellFormed(FeeInput(db, uid, text, now))
  {
    assert WellFormed(UserDataOf(db, uid));
  }

  lemma MaintenanceMessageKeepsWellFormed(db: Db, uid: int, raw: string, now: int)
    requires ConversationsWellFormed(db)
    ensures ConversationsWellFormed(MaintenanceMessageStep(db, uid, raw, now))
  {
    assert WellFormed(UserDataOf(db, uid));
  }

  /**
   * In a well-formed conversation the link step never meets a missing type
   * or cost, so its only refusals are an unknown user, a bad link and a bot
   * that is not an administrator of the target.
   */
  lemma LinkStepFindsItsData(db: Db, uid: int, link: string, botIsAdmin: bool)
    requires ConversationsWellFormed(db)
    requires RouteOf(UserDataOf(db, uid)) == LinkStep
    ensures LinkAccepted(db, uid, link, botIsAdmin)
            <==> uid in db.users && ExtractChannelId(link).Some? && botIsAdmin
  {
    assert WellFormed(UserDataOf(db, uid));
  }
}
