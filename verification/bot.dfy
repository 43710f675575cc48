/**
 * The bot as the handlers run it: one object holding the database tables and
 * the users' conversation data, whose handlers update those in place. Each
 * handler is proved to leave the object in the state the corresponding step
 * of `Store` computes, and to keep the store valid.
 */
module Bot {
  import opened Base
  import opened Text
  import opened Records
  import opened Ledger
  import opened Conversation
  import opened AdminSettings
  import opened MemberAdder
  import opened Commands
  import opened Store

  class BotState {
    var users: map<int, User>
    var userOrder: seq<int>
    var requests: map<int, FundingRequest>
    var nextRequestId: int
    var groups: seq<GroupSource>
    var system: Option<SystemSettings>
    var pointsSettings: Option<PointsSettings>
    var userData: map<int, UserData>

    /** The tables and conversations as one value. */
    function Snap(): Db
      reads this
    {
      Db(users, userOrder, requests, nextRequestId, groups, system, pointsSettings, userData)
    }

    ghost predicate Valid()
      reads this
    {
      Store.Valid(Snap())
    }

    /** A fresh, empty database, before initialisation. */
    constructor ()
      ensures Valid()
      ensures Snap() == Db(map[], [], map[], 1, [], None, None, map[])
    {
      users := map[];
      userOrder := [];
      requests := map[];
      nextRequestId := 1;
      groups := [];
      system := None;
      pointsSettings := None;
      userData := map[];
    }

    /** Seeds the settings rows and the bootstrap administrator where they are missing. */
    method InitDatabase(now: int)
      modifies this
      requires Valid()
      ensures Valid()
      ensures Snap() == Store.InitDatabase(old(Snap()), now)
    {
      InitDatabaseKeepsValid(Snap(), now);
      SeedSystemSettings(now);
      SeedPointsSettings(now);
      if BOOTSTRAP_ADMIN_ID !in users {
        users := users[BOOTSTRAP_ADMIN_ID := BootstrapAdmin(now)];
        userOrder := userOrder + [BOOTSTRAP_ADMIN_ID];
      }
    }

    /** Adds the system settings row, with its defaults, when the table has none. */
    method SeedSystemSettings(now: int)
      modifies this
      requires Valid()
      ensures Valid()
      ensures Snap() == Store.SeedSystemSettings(old(Snap()), now)
    {
      if system.None? {
        system := Some(DefaultSystemSettings(now));
      }
    }

    /** Adds the points settings row, with its defaults, when the table has none. */
    method SeedPointsSettings(now: int)
      modifies this
      requires Valid()
      ensures Valid()
      ensures Snap() == Store.SeedPointsSettings(old(Snap()), now)
    {
      if pointsSettings.None? {
        pointsSettings := Some(DefaultPointsSettings(now));
      }
    }

    /** `/start`: registers a new subscribed user and credits the referrer named in the first argument. */
    method StartCommand(uid: int, username: Option<string>, firstName: Option<string>,
                        lastName: Option<string>, args: seq<string>, subscribed: bool, now: int)
      modifies this
      requires Valid()
      ensures Valid()
      ensures Snap() == Start(old(Snap()), uid, username, firstName, lastName, args, subscribed, now)
    {
      StartKeepsValid(Snap(), uid, username, firstName, lastName, args, subscribed, now);
      if !subscribed || uid in users {
        return;
      }
      RegisterKeepsValid(Snap(), uid, username, firstName, lastName, now);
      users := users[uid := NewUser(uid, username, firstName, lastName, now)];
      userOrder := userOrder + [uid];
      ReferralOf(uid, args, now);
    }

    /** The referral part of `/start`, once the new user's row is in. */
    method ReferralOf(uid: int, args: seq<string>, now: int)
      modifies this
      requires Valid() && uid in users
      ensures Valid()
      ensures Snap() == CreditReferral(old(Snap()), uid, args, now)
    {
      Refer(uid, ReferrerArgument(args), now);
    }

    /** The referral, once the referrer's id is read (or not) from the arguments. */
    method Refer(uid: int, referrer: Option<int>, now: int)
      modifies this
      requires Valid() && uid in users
      ensures Valid()
      ensures Snap() == ReferBy(old(Snap()), uid, referrer, now)
    {
      ReferByKeepsValid(Snap(), uid, referrer, now);
      if referrer.Some? && referrer.value in users {
        var rid := referrer.value;
        if pointsSettings.None? {
          pointsSettings := Some(DefaultPointsSettings(now));
        } else {
          var credited := users[rid := CreditReferrer(users[rid], pointsSettings.value.pointsPerReferral)];
          users := credited[uid := credited[uid].(referredBy := Some(rid))];
        }
      }
    }

    /** The daily gift button. */
    method GiveDailyGift(uid: int, now: int)
      modifies this
      requires Valid()
      ensures Valid()
      ensures Snap() == DailyGiftStep(old(Snap()), uid, now)
    {
      if uid in users {
        users := users[uid := DailyGift(users[uid], now)];
      }
    }

    /** A `funding_type_<type>` button. */
    method SelectFundingType(uid: int, data: string)
      modifies this
      requires Valid()
      ensures Valid()
      ensures Snap() == Store.SelectFundingType(old(Snap()), uid, data)
    {
      var t := FundingTypeFromCallback(data);
      if t.Some? {
        userData := userData[uid := UserDataOf(Snap(), uid).(fundingType := t)];
      }
    }

    /** The count step of the funding conversation. */
    method HandleFundingRequest(uid: int, text: string)
      modifies this
      requires Valid()
      ensures Valid()
      ensures Snap() == Store.HandleFundingRequest(old(Snap()), uid, text)
    {
      var ud := UserDataOf(Snap(), uid);
      if ud.fundingType.None? || !IsDigits(text) {
        return;
      }
      var n := DigitsValue(text);
      if uid !in users {
        return;
      }
      var cost := n * POINTS_PER_MEMBER;
      if users[uid].points < cost {
        return;
      }
      userData := userData[uid := ud.(requestedMembers := Some(n as int), pointsNeeded := Some(cost))];
    }

    /** The link step of the funding conversation: debit, new pending request, cleared conversation. */
    method HandleChannelLink(uid: int, link: string, botIsAdmin: bool, now: int)
      modifies this
      requires Valid()
      ensures Valid()
      ensures Snap() == Store.HandleChannelLink(old(Snap()), uid, link, botIsAdmin, now)
    {
      LinkKeepsValid(Snap(), uid, link, botIsAdmin, now);
      var ud := UserDataOf(Snap(), uid);
      if uid !in users || ud.requestedMembers.None? {
        return;
      }
      var channel := ExtractChannelId(link);
      if channel.None? || !botIsAdmin || ud.pointsNeeded.None? || ud.fundingType.None? {
        return;
      }
      var cost := ud.pointsNeeded.value;
      users := users[uid := Debit(users[uid], cost)];
      var id := nextRequestId;
      requests := requests[id := NewFundingRequest(id, uid, channel.value, ud.fundingType.value,
                                                   ud.requestedMembers.value, cost, now)];
      nextRequestId := id + 1;
      userData := userData[uid := EmptyUserData];
    }

    /** A text message, routed by the sender's conversation data. */
    method HandleMessage(uid: int, text: string, subscribed: bool, botIsAdmin: bool, now: int)
      modifies this
      requires Valid()
      ensures Valid()
      ensures Snap() == Store.HandleMessage(old(Snap()), uid, text, subscribed, botIsAdmin, now)
    {
      if text == "" {
        return;
      }
      match RouteOf(UserDataOf(Snap(), uid))
      case CountStep =>
        HandleFundingRequest(uid, text);
      case LinkStep =>
        HandleChannelLink(uid, text, botIsAdmin, now);
      case OtherText =>
        if subscribed && uid in users && users[uid].isAdmin {
          HandleAdminCommands(text);
        }
    }

    /** `/add_admin`, `/ban` and `/add_points`. */
    method HandleAdminCommands(text: string)
      modifies this
      requires Valid()
      ensures Valid()
      ensures Snap() == Store.HandleAdminCommands(old(Snap()), text)
    {
      CommandsKeepValid(Snap(), text);
      var c := ParseCommand(text);
      if c.NoCommand? {
        return;
      }
      var target := FindTarget(Snap(), c.target);
      if target.None? {
        return;
      }
      var k := target.value;
      var u := users[k];
      match c
      case AddAdmin(_) =>
        users := users[k := u.(isAdmin := true)];
      case Ban(_, reason) =>
        users := users[k := u.(isBanned := true, banReason := Some(reason))];
      case AddPoints(_, amount) =>
        users := users[k := Credit(u, amount)];
    }

    /** The placeholder delivery run after a chat approval: the whole count is marked delivered. */
    method StartAddingMembers(rid: int, now: int)
      modifies this
      requires Valid() && rid in requests
      ensures Valid()
      ensures Snap() == old(Snap()).(requests := old(requests)[rid := CompleteAtOnce(old(requests[rid]), now)])
    {
      requests := requests[rid := CompleteAtOnce(requests[rid], now)];
    }

    /** The chat's approve button: approval, then the placeholder delivery. */
    method ApproveFundingRequestInChat(rid: int, adminId: int, now: int)
      modifies this
      requires Valid()
      ensures Valid()
      ensures Snap() == ApproveFromChat(old(Snap()), rid, adminId, now)
    {
      if rid !in requests {
        return;
      }
      requests := requests[rid := Approve(requests[rid], adminId, now)];
      StartAddingMembers(rid, now);
    }

    /** The panel's approve button: approval only, delivery is left to the worker. */
    method ApproveFundingRequest(rid: int, adminId: int, now: int)
      modifies this
      requires Valid()
      ensures Valid()
      ensures Snap() == ApproveStep(old(Snap()), rid, adminId, now)
    {
      if rid !in requests {
        return;
      }
      requests := requests[rid := Approve(requests[rid], adminId, now)];
    }

    /** The reject button, in the chat or the panel: the owner is refunded the cost. */
    method RejectFundingRequest(rid: int, adminId: int, now: int)
      modifies this
      requires Valid()
      ensures Valid()
      ensures Snap() == RejectStep(old(Snap()), rid, adminId, now)
    {
      if rid !in requests {
        return;
      }
      var r := requests[rid];
      if r.userId in users {
        users := users[r.userId := Credit(users[r.userId], r.pointsCost)];
      }
      requests := requests[rid := Reject(r, adminId, now)];
    }

    /** The approve and reject buttons sent to administrators in the chat. */
    method HandleAdminButtons(data: string, adminId: int, now: int)
      modifies this
      requires Valid()
      ensures Valid()
      ensures Snap() == AdminButtonStep(old(Snap()), data, adminId, now)
    {
      if StartsWith(data, APPROVE_PREFIX) {
        var rid := RequestIdFromCallback(data);
        if rid.Some? {
          ApproveFundingRequestInChat(rid.value, adminId, now);
        }
      } else if StartsWith(data, REJECT_PREFIX) {
        var rid := RequestIdFromCallback(data);
        if rid.Some? {
          RejectFundingRequest(rid.value, adminId, now);
        }
      }
    }

    /** The maintenance toggle. */
    method ToggleMaintenance(adminId: int, now: int)
      modifies this
      requires Valid()
      ensures Valid()
      ensures Snap() == ToggleMaintenanceStep(old(Snap()), adminId, now)
    {
      if system.Some? {
        system := Some(AdminSettings.ToggleMaintenance(system.value, adminId, now));
      }
    }

    /** The transfer toggle. */
    method ToggleTransfer(adminId: int, now: int)
      modifies this
      requires Valid()
      ensures Valid()
      ensures Snap() == ToggleTransferStep(old(Snap()), adminId, now)
    {
      if system.Some? {
        system := Some(AdminSettings.ToggleTransfer(system.value, adminId, now));
      }
    }

    /** Opens the fee input. */
    method EditTransferFeeMenu(uid: int)
      modifies this
      requires Valid()
      ensures Valid()
      ensures Snap() == Store.EditTransferFeeMenu(old(Snap()), uid)
    {
      userData := userData[uid := UserDataOf(Snap(), uid).(awaitingTransferFee := true)];
    }

    /** Opens the maintenance message input. */
    method EditMaintenanceMsg(uid: int)
      modifies this
      requires Valid()
      ensures Valid()
      ensures Snap() == Store.EditMaintenanceMsg(old(Snap()), uid)
    {
      userData := userData[uid := UserDataOf(Snap(), uid).(awaitingMaintenanceMsg := true)];
    }

    /**
     * The administrator panel's buttons. The system, points and transfer
     * views add their settings row when it is missing; the other views
     * change nothing.
     */
    method HandleAdminCallback(uid: int, data: string, now: int)
      modifies this
      requires Valid()
      ensures Valid()
      ensures Snap() == PanelCallbackStep(old(Snap()), uid, data, now)
    {
      if data == "admin_system" {
        SeedSystemSettings(now);
      } else if data == "admin_points" {
        SeedPointsSettings(now);
      } else if data == "admin_transfer" {
        SeedSystemSettings(now);
      } else if data == "toggle_maintenance" {
        ToggleMaintenance(uid, now);
      } else if data == "toggle_transfer" {
        ToggleTransfer(uid, now);
      } else if data == "edit_transfer_fee_menu" {
        EditTransferFeeMenu(uid);
      } else if data == "edit_maintenance_msg" {
        EditMaintenanceMsg(uid);
      } else if StartsWith(data, APPROVE_PREFIX) {
        var rid := RequestIdFromCallback(data);
        if rid.Some? {
          ApproveFundingRequest(rid.value, uid, now);
        }
      } else if StartsWith(data, REJECT_PREFIX) {
        var rid := RequestIdFromCallback(data);
        if rid.Some? {
          RejectFundingRequest(rid.value, uid, now);
        }
      }
    }

    /** An administrator's text while the fee or maintenance message input is open. */
    method HandleAdminInput(uid: int, raw: string, now: int)
      modifies this
      requires Valid()
      ensures Valid()
      ensures Snap() == Store.HandleAdminInput(old(Snap()), uid, raw, now)
    {
      if !(uid in users && users[uid].isAdmin) {
        return;
      }
      var ud := UserDataOf(Snap(), uid);
      if ud.awaitingTransferFee {
        ReadTransferFee(uid, Strip(raw), now);
      } else if ud.awaitingMaintenanceMsg {
        ReadMaintenanceMessage(uid, raw, now);
      }
    }

    /** The fee input, once the sender is known to be an administrator waiting to send one. */
    method ReadTransferFee(uid: int, text: string, now: int)
      modifies this
      requires Valid()
      ensures Valid()
      ensures Snap() == FeeInput(old(Snap()), uid, text, now)
    {
      var ud := UserDataOf(Snap(), uid);
      var decision := DecideFee(text);
      if decision.Accept? {
        if system.Some? {
          system := Some(SetTransferFee(system.value, decision.fee, uid, now));
        }
        userData := userData[uid := ud.(awaitingTransferFee := false)];
      }
    }

    /** The maintenance message input, once the sender is known to be an administrator waiting to send one. */
    method ReadMaintenanceMessage(uid: int, raw: string, now: int)
      modifies this
      requires Valid()
      ensures Valid()
      ensures Snap() == MaintenanceMessageStep(old(Snap()), uid, raw, now)
    {
      var ud := UserDataOf(Snap(), uid);
      var msg := MaintenanceMessageInput(raw);
      if msg.Some? {
        if system.Some? {
          system := Some(SetMaintenanceMessage(system.value, msg.value, uid, now));
        }
        userData := userData[uid := ud.(awaitingMaintenanceMsg := false)];
      }
    }

    /**
     * One delivery run for a request: an approved request of a known user
     * collects members from the active groups, then records the count and
     * its outcome. The count is returned when the run got that far.
     */
    method AddMembersToChannel(rid: int, gw: Gateway, now: int) returns (added: Option<nat>)
      modifies this
      requires Valid()
      ensures Valid()
      ensures Snap() == AddMembersToChannelStep(old(Snap()), rid, gw, now)
      ensures added.Some? <==> rid in old(requests) && old(requests[rid]).status == Approved && old(requests[rid]).userId in users
      ensures added.Some? ==> added.value == requests[rid].completedMembers
    {
      AddMembersKeepsValid(Snap(), rid, gw, now);
      if rid !in requests {
        return None;
      }
      var r := requests[rid];
      if r.status != Approved || r.userId !in users {
        return None;
      }
      var n := CollectFromGroups(ActiveListings(groups, gw, rid), r.requestedMembers);
      requests := requests[rid := Finish(r, n, now)];
      added := Some(n);
    }

    /**
     * One cycle of the worker: a delivery run, in id order, for every
     * request approved when the cycle starts.
     */
    method ProcessPendingRequests(gw: Gateway, now: int)
      modifies this
      requires Valid()
      ensures Valid()
      ensures Snap() == Cycle(old(Snap()), gw, now)
    {
      ghost var db0 := Snap();
      ProcessedBelowAtStart(db0, gw, now);
      var rid := 1;
      while rid < nextRequestId
        invariant 1 <= rid <= db0.nextRequestId == nextRequestId
        invariant Snap() == db0.(requests := ProcessedBelow(db0, rid, gw, now))
        invariant Valid()
      {
        RunAdvancesCycle(db0, rid, gw, now);
        var _ := AddMembersToChannel(rid, gw, now);
        rid := rid + 1;
      }
      ProcessedBelowAtEnd(db0, gw, now);
      CycleKeepsValid(db0, gw, now);
    }
  }
}
