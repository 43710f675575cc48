/**
 * The read-modify-write steps that the handlers apply to one user's balance
 * or to one funding request, each as a function from the old row to the new.
 */
module Ledger {
  import opened Base
  import opened Records

  /**
   * The daily gift is withheld while fewer than one whole day has passed
   * since the last one: `(now - last).days < 1`, where `days` rounds down.
   */
  predicate OnCooldown(u: User, now: int)
    ensures u.lastDailyGift.None? ==> !OnCooldown(u, now)
    ensures u.lastDailyGift.Some? && now - u.lastDailyGift.value >= SECONDS_PER_DAY ==> !OnCooldown(u, now)
    ensures u.lastDailyGift.Some? && 0 <= now - u.lastDailyGift.value < SECONDS_PER_DAY ==> OnCooldown(u, now)
  {
    u.lastDailyGift.Some? && (now - u.lastDailyGift.value) / SECONDS_PER_DAY < 1
  }

  /** Rounding the elapsed time down to days is a rolling 24-hour window. */
  lemma CooldownIsRollingWindow(u: User, now: int)
    ensures OnCooldown(u, now) <==> u.lastDailyGift.Some? && now - u.lastDailyGift.value < SECONDS_PER_DAY
  {
    if u.lastDailyGift.Some? {
      var d := now - u.lastDailyGift.value;
      var q := d / SECONDS_PER_DAY;
      assert d == q * SECONDS_PER_DAY + d % SECONDS_PER_DAY;
      if q < 1 {
        assert q * SECONDS_PER_DAY <= 0;
      } else {
        assert q * SECONDS_PER_DAY >= SECONDS_PER_DAY;
      }
    }
  }

  /** The daily gift: refused during the cooldown, otherwise a fixed credit stamped with `now`. */
  function DailyGift(u: User, now: int): (r: User)
    ensures OnCooldown(u, now) ==> r == u
    ensures !OnCooldown(u, now) ==> r.points == u.points + DAILY_GIFT_POINTS && r.lastDailyGift == Some(now)
    ensures r.(points := u.points, lastDailyGift := u.lastDailyGift) == u
  {
    if OnCooldown(u, now) then u
    else u.(points := u.points + DAILY_GIFT_POINTS, lastDailyGift := Some(now))
  }

  /** A granted gift is refused again for the next 24 hours. */
  lemma GiftRefusedForADay(u: User, now: int, later: int)
    requires !OnCooldown(u, now)
    requires now <= later < now + SECONDS_PER_DAY
    ensures OnCooldown(DailyGift(u, now), later)
    ensures DailyGift(DailyGift(u, now), later) == DailyGift(u, now)
  {
    CooldownIsRollingWindow(DailyGift(u, now), later);
  }

  /** Once 24 hours have passed since a gift, the next one is granted. */
  lemma GiftGrantedAfterADay(u: User, now: int, later: int)
    requires !OnCooldown(u, now)
    requires later >= now + SECONDS_PER_DAY
    ensures DailyGift(DailyGift(u, now), later).points == u.points + 2 * DAILY_GIFT_POINTS
  {
    CooldownIsRollingWindow(DailyGift(u, now), later);
  }

  /** Add `amount` to a balance (refunds, administrator grants). */
  function Credit(u: User, amount: int): (r: User)
    ensures r.points - u.points == amount
    ensures r.(points := u.points) == u
  {
    u.(points := u.points + amount)
  }

  /** Take `amount` from a balance, with no check that the balance covers it. */
  function Debit(u: User, amount: int): (r: User)
    ensures u.points - r.points == amount
    ensures r.(points := u.points) == u
  {
    u.(points := u.points - amount)
  }

  /** A credit undoes a debit of the same amount. */
  lemma CreditUndoesDebit(u: User, amount: int)
    ensures Credit(Debit(u, amount), amount) == u
  {
  }

  /** The referrer's reward: the configured points and one more referral. */
  function CreditReferrer(u: User, perReferral: int): (r: User)
    ensures r.points == u.points + perReferral && r.referrals == u.referrals + 1
    ensures r.(points := u.points, referrals := u.referrals) == u
  {
    u.(points := u.points + perReferral, referrals := u.referrals + 1)
  }

  /** Approval, whatever the request's status was. */
  function Approve(r: FundingRequest, adminId: int, now: int): (q: FundingRequest)
    ensures q.status == Approved && q.approvedBy == Some(adminId) && q.updatedAt == now
    ensures q.(status := r.status, approvedBy := r.approvedBy, updatedAt := r.updatedAt) == r
  {
    r.(status := Approved, approvedBy := Some(adminId), updatedAt := now)
  }

  /** Rejection, whatever the request's status was; the approver column records the rejecting admin. */
  function Reject(r: FundingRequest, adminId: int, now: int): (q: FundingRequest)
    ensures q.status == Rejected && q.approvedBy == Some(adminId) && q.updatedAt == now
    ensures q.(status := r.status, approvedBy := r.approvedBy, updatedAt := r.updatedAt) == r
  {
    r.(status := Rejected, approvedBy := Some(adminId), updatedAt := now)
  }

  /** The placeholder delivery run right after a chat approval: everything asked for counts as delivered. */
  function CompleteAtOnce(r: FundingRequest, now: int): (q: FundingRequest)
    ensures q.status == Completed && q.completedMembers == r.requestedMembers && q.updatedAt == now
    ensures q.(status := r.status, completedMembers := r.completedMembers, updatedAt := r.updatedAt) == r
  {
    r.(status := Completed, completedMembers := r.requestedMembers, updatedAt := now)
  }

  /**
   * The worker's final write: the count delivered in this run replaces the
   * old one, and any delivery at all, even a partial one, counts as completed.
   */
  function Finish(r: FundingRequest, added: nat, now: int): (q: FundingRequest)
    ensures q.completedMembers == added && q.updatedAt == now
    ensures q.status == Completed <==> added > 0
    ensures q.status == Failed <==> added == 0
    ensures q.(status := r.status, completedMembers := r.completedMembers, updatedAt := r.updatedAt) == r
  {
    r.(completedMembers := added, status := if added > 0 then Completed else Failed, updatedAt := now)
  }
}
