/**
 * The administrator panel's pure parts: validation of the transfer-fee and
 * maintenance-message inputs, the two boolean toggles, and the paging
 * arithmetic of the user list.
 */
module AdminSettings {
  import opened Base
  import opened Text
  import opened Records

  const MAX_TRANSFER_FEE_PERCENT := 50

  /** What the fee input does with a message. */
  datatype FeeDecision = NotANumber | OutOfRange(fee: int) | Accept(fee: int)

  /** The fee must be an integer from 0 to 50 inclusive. */
  function DecideFee(text: string): (d: FeeDecision)
    ensures d.NotANumber? <==> ParseInt(text).None?
    ensures d.OutOfRange? <==> ParseInt(text).Some? && !(0 <= ParseInt(text).value <= MAX_TRANSFER_FEE_PERCENT)
    ensures d.Accept? ==> ParseInt(text) == Some(d.fee) && 0 <= d.fee <= MAX_TRANSFER_FEE_PERCENT
  {
    match ParseInt(text)
    case None => NotANumber
    case Some(f) => if f < 0 || f > MAX_TRANSFER_FEE_PERCENT then OutOfRange(f) else Accept(f)
  }

  /** Every percentage from 0 to 50, written as a number, is accepted as itself. */
  lemma EveryValidFeeAccepted(fee: int)
    requires 0 <= fee <= MAX_TRANSFER_FEE_PERCENT
    ensures DecideFee(IntToString(fee)) == Accept(fee)
  {
    ParseIntRoundTrip(fee);
  }

  /** A number past either end of the range is refused, keeping the number. */
  lemma OutOfRangeFeeRefused(fee: int)
    requires fee < 0 || fee > MAX_TRANSFER_FEE_PERCENT
    ensures DecideFee(IntToString(fee)) == OutOfRange(fee)
  {
    ParseIntRoundTrip(fee);
  }

  /** The maintenance message is the stripped text, refused when nothing is left. */
  function MaintenanceMessageInput(text: string): (m: Option<string>)
    ensures m.None? <==> forall i :: 0 <= i < |text| ==> IsSpace(text[i])
    ensures m.Some? ==> |m.value| > 0 && !IsSpace(m.value[0]) && !IsSpace(m.value[|m.value| - 1])
    ensures m.Some? ==> m.value == Strip(text)
  {
    var t := Strip(text);
    if t == [] then None else Some(t)
  }

  function SetTransferFee(s: SystemSettings, fee: int, admin: int, now: int): (r: SystemSettings)
    ensures r.transferFeePercent == fee && r.updatedBy == Some(admin) && r.updatedAt == now
    ensures r.(transferFeePercent := s.transferFeePercent, updatedBy := s.updatedBy, updatedAt := s.updatedAt) == s
  {
    s.(transferFeePercent := fee, updatedBy := Some(admin), updatedAt := now)
  }

  function SetMaintenanceMessage(s: SystemSettings, msg: string, admin: int, now: int): (r: SystemSettings)
    ensures r.maintenanceMessage == msg && r.updatedBy == Some(admin) && r.updatedAt == now
    ensures r.(maintenanceMessage := s.maintenanceMessage, updatedBy := s.updatedBy, updatedAt := s.updatedAt) == s
  {
    s.(maintenanceMessage := msg, updatedBy := Some(admin), updatedAt := now)
  }

  function ToggleMaintenance(s: SystemSettings, admin: int, now: int): (r: SystemSettings)
    ensures r.maintenanceMode == !s.maintenanceMode && r.updatedBy == Some(admin) && r.updatedAt == now
    ensures r.(maintenanceMode := s.maintenanceMode, updatedBy := s.updatedBy, updatedAt := s.updatedAt) == s
  {
    s.(maintenanceMode := !s.maintenanceMode, updatedBy := Some(admin), updatedAt := now)
  }

  function ToggleTransfer(s: SystemSettings, admin: int, now: int): (r: SystemSettings)
    ensures r.transferEnabled == !s.transferEnabled && r.updatedBy == Some(admin) && r.updatedAt == now
    ensures r.(transferEnabled := s.transferEnabled, updatedBy := s.updatedBy, updatedAt := s.updatedAt) == s
  {
    s.(transferEnabled := !s.transferEnabled, updatedBy := Some(admin), updatedAt := now)
  }

  /** Toggling twice restores the flag and leaves every other setting as it was. */
  lemma ToggleTwiceRestores(s: SystemSettings, admin1: int, admin2: int, t1: int, t2: int)
    ensures ToggleMaintenance(ToggleMaintenance(s, admin1, t1), admin2, t2) == s.(updatedBy := Some(admin2), updatedAt := t2)
    ensures ToggleTransfer(ToggleTransfer(s, admin1, t1), admin2, t2) == s.(updatedBy := Some(admin2), updatedAt := t2)
  {
  }

  const USERS_PER_PAGE := 10

  /** `ceil(total / 10)`, written as `(total + 9) // 10`. */
  function TotalPages(total: nat): (pages: nat)
    ensures total == 0 <==> pages == 0
    ensures (pages - 1) * USERS_PER_PAGE < total <= pages * USERS_PER_PAGE || total == 0
  {
    (total + USERS_PER_PAGE - 1) / USERS_PER_PAGE
  }

  /** The number of users skipped before the page. */
  function Offset(page: int): (o: int)
    ensures o >= 0 <==> page >= 1
    ensures o % USERS_PER_PAGE == 0
  {
    (page - 1) * USERS_PER_PAGE
  }

  /** The previous button is shown exactly when a whole page of users comes before this one. */
  predicate HasPrevious(page: int)
    ensures HasPrevious(page) <==> Offset(page) >= USERS_PER_PAGE
  {
    page > 1
  }

  /** The next button is shown exactly when this page's window ends before the last page's does. */
  predicate HasNext(page: int, totalPages: int)
    ensures HasNext(page, totalPages) <==> Offset(page) + USERS_PER_PAGE < totalPages * USERS_PER_PAGE
  {
    page < totalPages
  }

  /** The user at position `i` of the list is shown on page `i / 10 + 1`, which exists. */
  lemma EveryUserOnSomePage(total: nat, i: nat)
    requires i < total
    ensures var p := i / USERS_PER_PAGE + 1;
      1 <= p <= TotalPages(total) && Offset(p) <= i < Offset(p) + USERS_PER_PAGE
  {
    var p := i / USERS_PER_PAGE + 1;
    var n := TotalPages(total);
    assert (p - 1) * USERS_PER_PAGE <= i < total <= n * USERS_PER_PAGE;
  }

  /** Every page from the first to the last starts at a user who exists. */
  lemma PagesInRangeAreNonEmpty(total: nat, page: int)
    requires 1 <= page <= TotalPages(total)
    ensures 0 <= Offset(page) < total
  {
    var n := TotalPages(total);
    assert (page - 1) * USERS_PER_PAGE <= (n - 1) * USERS_PER_PAGE;
  }

  /** The previous and next buttons of a page in range lead to pages in range. */
  lemma NavigationStaysInRange(total: nat, page: int)
    requires 1 <= page <= TotalPages(total)
    ensures HasPrevious(page) ==> 1 <= page - 1 <= TotalPages(total)
    ensures HasNext(page, TotalPages(total)) ==> 1 <= page + 1 <= TotalPages(total)
    ensures !HasNext(page, TotalPages(total)) ==> total <= Offset(page) + USERS_PER_PAGE
  {
    var n := TotalPages(total);
    if !HasNext(page, n) {
      assert page == n;
    }
  }
}
