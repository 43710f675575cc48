/**
 * The delivery worker's counting: which members of a source group are
 * fetched, how the attempts to add them to the target channel are tallied,
 * and how the per-group tallies add up to a request's delivered count.
 *
 * Telegram is not called: what the member listing of a group yields, and
 * what each add attempt answers, are given as data (`Candidate`).
 */
module MemberAdder {
  import opened Base
  import opened Text

  /** A member as the group listing reports it. */
  datatype ChatMember = ChatMember(userId: int, isBot: bool, status: string)

  /** What one attempt to add a member to the target channel answers. */
  datatype AddOutcome =
    | Added
    | PrivacyRestricted
    | TelegramFailure(message: string)
    | OtherFailure

  /** A listed member together with the answer its add attempt would get. */
  datatype Candidate = Candidate(member: ChatMember, outcome: AddOutcome)

  const ALREADY_PARTICIPANT := "USER_ALREADY_PARTICIPANT"

  /** Only ordinary members are fetched: no bots, no administrators or owners. */
  predicate IsEligible(m: ChatMember)
    ensures m.isBot || m.status != "member" ==> !IsEligible(m)
    ensures !m.isBot && m.status == "member" ==> IsEligible(m)
  {
    !m.isBot && m.status == "member"
  }

  /** The eligible candidates of a listing, in listing order. */
  function Eligible(listing: seq<Candidate>): (e: seq<Candidate>)
    ensures |e| <= |listing|
    ensures forall k :: 0 <= k < |e| ==> IsEligible(e[k].member)
    ensures forall c :: c in listing && IsEligible(c.member) ==> c in e
  {
    if |listing| == 0 then []
    else
      var init := listing[..|listing| - 1];
      var last := listing[|listing| - 1];
      assert listing == init + [last];
      var e := Eligible(init);
      if IsEligible(last.member) then e + [last] else e
  }

  /** Everything kept by the filter was in the listing. */
  lemma {:induction false} EligibleFromListing(listing: seq<Candidate>, c: Candidate)
    requires c in Eligible(listing)
    ensures c in listing
  {
    var n := |listing|;
    if c != listing[n - 1] {
      EligibleFromListing(listing[..n - 1], c);
    }
  }

  /** Filtering a listing piece by piece is filtering it whole. */
  lemma {:induction false} EligibleAppend(a: seq<Candidate>, b: seq<Candidate>)
    ensures Eligible(a + b) == Eligible(a) + Eligible(b)
    decreases |b|
  {
    if |b| > 0 {
      var b' := b[..|b| - 1];
      assert (a + b)[..|a + b| - 1] == a + b';
      EligibleAppend(a, b');
    } else {
      assert a + b == a;
    }
  }

  /**
   * What fetching a group's members with a limit returns: the limit is checked
   * before each listed member is filtered, so nothing is taken once `limit`
   * eligible members are held.
   */
  function Fetch(listing: seq<Candidate>, limit: int): (ms: seq<Candidate>)
    ensures |ms| <= Max(limit, 0)
    ensures forall k :: 0 <= k < |ms| ==> IsEligible(ms[k].member)
  {
    if |listing| == 0 then []
    else
      var f := Fetch(listing[..|listing| - 1], limit);
      var last := listing[|listing| - 1];
      if |f| < limit && IsEligible(last.member) then f + [last] else f
  }

  /** A fetch returns the listing's first `limit` eligible members, in listing order. */
  lemma {:induction false} FetchTakesFirstEligible(listing: seq<Candidate>, limit: int)
    ensures Fetch(listing, limit) == Eligible(listing)[..Min(Max(limit, 0), |Eligible(listing)|)]
  {
    if |listing| > 0 {
      var init := listing[..|listing| - 1];
      var last := listing[|listing| - 1];
      FetchTakesFirstEligible(init, limit);
      var e := Eligible(init);
      if IsEligible(last.member) {
        assert Eligible(listing) == e + [last];
        assert e == (e + [last])[..|e|];
      }
    }
  }

  /** Once the limit is reached, the rest of the listing adds nothing. */
  lemma {:induction false} FetchStable(listing: seq<Candidate>, i: nat, limit: int)
    requires i <= |listing|
    requires |Fetch(listing[..i], limit)| >= limit
    ensures Fetch(listing, limit) == Fetch(listing[..i], limit)
    decreases |listing| - i
  {
    if i < |listing| {
      assert listing[..|listing| - 1][..i] == listing[..i];
      FetchStable(listing[..|listing| - 1], i, limit);
    } else {
      assert listing[..i] == listing;
    }
  }

  /**
   * Fetching group members. A listing that fails part-way is the part
   * listed before the failure.
   */
  method GetGroupMembers(listing: seq<Candidate>, limit: int) returns (members: seq<Candidate>)
    ensures members == Fetch(listing, limit)
    ensures forall k :: 0 <= k < |members| ==> IsEligible(members[k].member)
    ensures members <= Eligible(listing)
    ensures |members| <= Max(limit, 0)
    ensures |members| < limit ==> members == Eligible(listing)
  {
    members := [];
    var i := 0;
    while i < |listing|
      invariant 0 <= i <= |listing|
      invariant members == Fetch(listing[..i], limit)
    {
      if |members| >= limit {
        FetchStable(listing, i, limit);
        break;
      }
      assert listing[..i + 1][..i] == listing[..i];
      if IsEligible(listing[i].member) {
        members := members + [listing[i]];
      }
      i := i + 1;
    }
    if i == |listing| {
      assert listing[..i] == listing;
    }
    FetchTakesFirstEligible(listing, limit);
  }

  /** An outcome that the worker counts as a delivered member. */
  predicate Counts(o: AddOutcome)
    ensures o.Added? ==> Counts(o)
    ensures o.PrivacyRestricted? || o.OtherFailure? ==> !Counts(o)
    ensures o == TelegramFailure(ALREADY_PARTICIPANT) ==> Counts(o)
    ensures o.TelegramFailure? && |o.message| < |ALREADY_PARTICIPANT| ==> !Counts(o)
  {
    o.Added? || (o.TelegramFailure? && Contains(o.message, ALREADY_PARTICIPANT))
  }

  /** How many candidates of `ms` would count. */
  function CountOf(ms: seq<Candidate>): (n: nat)
    ensures n <= |ms|
  {
    if |ms| == 0 then 0
    else CountOf(ms[..|ms| - 1]) + (if Counts(ms[|ms| - 1].outcome) then 1 else 0)
  }

  /** The state of the per-member loop: members counted so far, and whether it was cut short. */
  datatype Tally = Tally(added: nat, aborted: bool)

  /**
   * Trying the fetched members in order: stop once `max` are counted; an
   * add or an "already a participant" answer counts; a privacy refusal or
   * any other Telegram error skips the member; any other error ends the
   * group with the count so far.
   */
  function Run(ms: seq<Candidate>, max: int): (t: Tally)
    ensures t.added <= |ms|
  {
    if |ms| == 0 then Tally(0, false)
    else
      var t := Run(ms[..|ms| - 1], max);
      if t.aborted || t.added >= max then t
      else
        var o := ms[|ms| - 1].outcome;
        if o.OtherFailure? then Tally(t.added, true)
        else if Counts(o) then Tally(t.added + 1, false)
        else t
  }

  /** Members added from one group when at most `max` are wanted: twice `max` are fetched. */
  function GroupYield(listing: seq<Candidate>, max: int): (n: nat)
    ensures max <= 0 ==> n == 0
  {
    Run(Fetch(listing, 2 * max), max).added
  }

  /** A group whose fetch lists nobody yields nobody. */
  lemma EmptyListingYieldsNothing(max: int)
    ensures GroupYield([], max) == 0
  {
  }

  /** The loop never counts past `max`, nor more members than counting answers it saw. */
  lemma {:induction false} RunBounded(ms: seq<Candidate>, max: int)
    ensures Run(ms, max).added <= Max(max, 0)
    ensures Run(ms, max).added <= CountOf(ms)
  {
    if |ms| > 0 {
      RunBounded(ms[..|ms| - 1], max);
    }
  }

  /** Without an aborting error the loop counts exactly the counting answers, up to `max`. */
  lemma {:induction false} RunWithoutAbort(ms: seq<Candidate>, max: int)
    requires forall k :: 0 <= k < |ms| ==> !ms[k].outcome.OtherFailure?
    ensures Run(ms, max) == Tally(Min(CountOf(ms), Max(max, 0)), false)
  {
    if |ms| > 0 {
      RunWithoutAbort(ms[..|ms| - 1], max);
    }
  }

  /** One group never yields more than was asked for, nor more than its eligible members who count. */
  lemma GroupYieldBounded(listing: seq<Candidate>, max: int)
    ensures GroupYield(listing, max) <= Max(max, 0)
    ensures GroupYield(listing, max) <= CountOf(Eligible(listing))
  {
    var ms := Fetch(listing, 2 * max);
    RunBounded(ms, max);
    FetchTakesFirstEligible(listing, 2 * max);
    CountOfPrefix(Eligible(listing), |ms|);
  }

  /** A group whose eligible members all get added yields everything asked for, if it has enough. */
  lemma GroupFilled(listing: seq<Candidate>, max: int)
    requires max >= 0 && |Eligible(listing)| >= max
    requires forall c :: c in listing ==> c.outcome.Added?
    ensures GroupYield(listing, max) == max
  {
    var ms := Fetch(listing, 2 * max);
    FetchTakesFirstEligible(listing, 2 * max);
    assert |ms| >= max;
    forall k | 0 <= k < |ms| ensures ms[k].outcome.Added? {
      assert ms[k] == Eligible(listing)[k];
      EligibleFromListing(listing, ms[k]);
    }
    AllCount(ms);
    RunWithoutAbort(ms, max);
  }

  lemma {:induction false} AllCount(ms: seq<Candidate>)
    requires forall k :: 0 <= k < |ms| ==> ms[k].outcome.Added?
    ensures CountOf(ms) == |ms|
  {
    if |ms| > 0 {
      AllCount(ms[..|ms| - 1]);
    }
  }

  /** A prefix never holds more counting answers than the whole. */
  lemma {:induction false} CountOfPrefix(ms: seq<Candidate>, i: nat)
    requires i <= |ms|
    ensures CountOf(ms[..i]) <= CountOf(ms)
    decreases |ms| - i
  {
    if i < |ms| {
      CountOfPrefix(ms[..|ms| - 1], i);
      assert ms[..|ms| - 1][..i] == ms[..i];
    } else {
      assert ms[..i] == ms;
    }
  }

  /**
   * Adding members from one group: fetch twice the wanted number, then try
   * them one at a time until `max` are counted.
   */
  method AddMembersFromGroup(listing: seq<Candidate>, max: int) returns (added: nat)
    ensures added == GroupYield(listing, max)
    ensures added <= Max(max, 0)
  {
    var ms := GetGroupMembers(listing, 2 * max);
    added := TryMembers(ms, max);
    GroupYieldBounded(listing, max);
  }

  /** The per-member loop of a group: the members counted before it stops. */
  method TryMembers(ms: seq<Candidate>, max: int) returns (added: nat)
    ensures added == Run(ms, max).added
  {
    added := 0;
    var i := 0;
    while i < |ms|
      invariant 0 <= i <= |ms|
      invariant Run(ms[..i], max) == Tally(added, false)
    {
      if added >= max {
        RunStable(ms, i, max);
        return;
      }
      assert ms[..i + 1][..i] == ms[..i];
      var o := ms[i].outcome;
      if o.OtherFailure? {
        assert Run(ms[..i + 1], max) == Tally(added, true);
        RunStable(ms, i + 1, max);
        return;
      } else if Counts(o) {
        added := added + 1;
      }
      i := i + 1;
    }
    assert ms[..i] == ms;
  }

  /** Once the loop has stopped, later members change nothing. */
  lemma {:induction false} RunStable(ms: seq<Candidate>, i: nat, max: int)
    requires i <= |ms|
    requires Run(ms[..i], max).aborted || Run(ms[..i], max).added >= max
    ensures Run(ms, max) == Run(ms[..i], max)
    decreases |ms| - i
  {
    if i < |ms| {
      assert ms[..|ms| - 1][..i] == ms[..i];
      RunStable(ms[..|ms| - 1], i, max);
    } else {
      assert ms[..i] == ms;
    }
  }

  /**
   * The request's delivered count over the active groups in order: each
   * group is asked for what is still missing, and the groups after the
   * request is filled are not visited.
   */
  function ChannelTotal(listings: seq<seq<Candidate>>, needed: int): (n: nat)
    ensures needed <= 0 || |listings| == 0 ==> n == 0
  {
    if |listings| == 0 then 0
    else
      var t := ChannelTotal(listings[..|listings| - 1], needed);
      if t >= needed then t else t + GroupYield(listings[|listings| - 1], needed - t)
  }

  /** However the groups answer, a request never gets more than it asked for. */
  lemma {:induction false} ChannelTotalBounded(listings: seq<seq<Candidate>>, needed: int)
    ensures ChannelTotal(listings, needed) <= Max(needed, 0)
  {
    if |listings| > 0 {
      ChannelTotalBounded(listings[..|listings| - 1], needed);
      BoundedStep(listings, needed);
    }
  }

  /** A group asked for what is still missing keeps the total within the request. */
  lemma BoundedStep(listings: seq<seq<Candidate>>, needed: int)
    requires |listings| > 0
    requires ChannelTotal(listings[..|listings| - 1], needed) <= Max(needed, 0)
    ensures ChannelTotal(listings, needed) <= Max(needed, 0)
  {
    var t := ChannelTotal(listings[..|listings| - 1], needed);
    GroupYieldBounded(listings[|listings| - 1], needed - t);
  }

  /** Groups with nobody to add deliver nothing. */
  lemma {:induction false} NoEligibleNoDelivery(listings: seq<seq<Candidate>>, needed: int)
    requires forall k :: 0 <= k < |listings| ==> Eligible(listings[k]) == []
    ensures ChannelTotal(listings, needed) == 0
  {
    if |listings| > 0 {
      NoEligibleNoDelivery(listings[..|listings| - 1], needed);
      GroupYieldBounded(listings[|listings| - 1], needed);
    }
  }

  /** Visiting one more group never lowers the delivered count. */
  lemma MoreGroupsNeverDeliverLess(listings: seq<seq<Candidate>>, g: seq<Candidate>, needed: int)
    ensures ChannelTotal(listings, needed) <= ChannelTotal(listings + [g], needed)
  {
    assert (listings + [g])[..|listings|] == listings;
  }

  /** A first group able to fill the whole request does so, and no later group changes that. */
  lemma FirstGroupFills(g: seq<Candidate>, rest: seq<seq<Candidate>>, needed: int)
    requires needed >= 0 && |Eligible(g)| >= needed
    requires forall c :: c in g ==> c.outcome.Added?
    ensures ChannelTotal([g] + rest, needed) == needed
  {
    var listings := [g] + rest;
    assert listings[..1] == [g];
    assert [g][..0] == [];
    GroupFilled(g, needed);
    assert ChannelTotal([g], needed) == needed;
    TotalStable(listings, 1, needed);
  }

  /** The worker's loop over the active groups' listings. */
  method CollectFromGroups(listings: seq<seq<Candidate>>, needed: int) returns (added: nat)
    ensures added == ChannelTotal(listings, needed)
    ensures added <= Max(needed, 0)
  {
    ChannelTotalBounded(listings, needed);
    added := 0;
    var i := 0;
    while i < |listings|
      invariant 0 <= i <= |listings|
      invariant added == ChannelTotal(listings[..i], needed)
    {
      if added >= needed {
        TotalStable(listings, i, needed);
        return;
      }
      TotalStep(listings, i, needed);
      var got := AddMembersFromGroup(listings[i], needed - added);
      added := added + got;
      i := i + 1;
    }
    assert listings[..i] == listings;
  }

  /** One more group: the total over a prefix grows by that group's answer, if still unfilled. */
  lemma TotalStep(listings: seq<seq<Candidate>>, i: nat, needed: int)
    requires i < |listings|
    ensures var t := ChannelTotal(listings[..i], needed);
      ChannelTotal(listings[..i + 1], needed)
        == if t >= needed then t else t + GroupYield(listings[i], needed - t)
  {
    assert listings[..i + 1][..i] == listings[..i];
    assert listings[..i + 1][i] == listings[i];
  }

  /** The total after one more group, from the total before it. */
  lemma ChannelTotalSnoc(init: seq<seq<Candidate>>, g: seq<Candidate>, needed: int)
    ensures var t := ChannelTotal(init, needed);
      ChannelTotal(init + [g], needed) == if t >= needed then t else t + GroupYield(g, needed - t)
  {
    assert (init + [g])[..|init|] == init;
    assert (init + [g])[|init|] == g;
  }

  /**
   * A group that yields nobody, whether its fetch failed or every add did,
   * changes nothing: the groups after it are asked for exactly what they
   * would have been asked for without it.
   */
  lemma {:induction false} BarrenGroupSkipped(a: seq<seq<Candidate>>, g: seq<Candidate>, b: seq<seq<Candidate>>, needed: int)
    requires forall k :: GroupYield(g, k) == 0
    ensures ChannelTotal(a + [g] + b, needed) == ChannelTotal(a + b, needed)
    decreases |b|
  {
    if |b| == 0 {
      AppendNothing(a + [g]);
      AppendNothing(a);
      ChannelTotalSnoc(a, g, needed);
    } else {
      var b', x := b[..|b| - 1], b[|b| - 1];
      InitAndLast(b);
      BarrenGroupSkipped(a, g, b', needed);
      SnocRegroup(a + [g], b', x);
      SnocRegroup(a, b', x);
      ChannelTotalSnoc(a + [g] + b', x, needed);
      ChannelTotalSnoc(a + b', x, needed);
    }
  }

  lemma InitAndLast<T>(s: seq<T>)
    requires |s| > 0
    ensures s == s[..|s| - 1] + [s[|s| - 1]]
  {
  }

  lemma SnocRegroup<T>(a: seq<T>, b': seq<T>, x: T)
    ensures a + (b' + [x]) == (a + b') + [x]
  {
  }

  /** Once the request is filled, the remaining groups change nothing. */
  lemma {:induction false} TotalStable(listings: seq<seq<Candidate>>, i: nat, needed: int)
    requires i <= |listings|
    requires ChannelTotal(listings[..i], needed) >= needed
    ensures ChannelTotal(listings, needed) == ChannelTotal(listings[..i], needed)
    decreases |listings| - i
  {
    if i < |listings| {
      assert listings[..|listings| - 1][..i] == listings[..i];
      TotalStable(listings[..|listings| - 1], i, needed);
    } else {
      assert listings[..i] == listings;
    }
  }
}
