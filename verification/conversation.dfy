/**
 * The per-user conversation flags (`context.user_data`), how a text message
 * is routed by them, the channel-link parser and the parsing of callback
 * data written by the bot's own buttons.
 */
module Conversation {
  import opened Base
  import opened Text

  /**
   * The keys a user's `user_data` can hold: the funding flow's
   * `funding_type`, `requested_members` and `points_needed`, and the
   * administrator's `awaiting_transfer_fee` and `awaiting_maintenance_msg`.
   * An absent key is `None` or `false`.
   */
  datatype UserData = UserData(
    fundingType: Option<string>,
    requestedMembers: Option<int>,
    pointsNeeded: Option<int>,
    awaitingTransferFee: bool,
    awaitingMaintenanceMsg: bool)

  /** `user_data` after `clear()`, and for a user who never had any. */
  const EmptyUserData := UserData(None, None, None, false, false)

  /** Where a text message goes. */
  datatype Route = CountStep | LinkStep | OtherText

  /**
   * The count step while a funding type is chosen and no count is stored;
   * the link step while a count and its cost are stored; otherwise the
   * message is ordinary text.
   */
  function RouteOf(ud: UserData): (r: Route)
    ensures r == CountStep <==> ud.fundingType.Some? && ud.requestedMembers.None?
    ensures r == LinkStep <==> ud.requestedMembers.Some? && ud.pointsNeeded.Some? && !(ud.fundingType.Some? && ud.requestedMembers.None?)
  {
    if ud.fundingType.Some? && ud.requestedMembers.None? then CountStep
    else if ud.requestedMembers.Some? && ud.pointsNeeded.Some? then LinkStep
    else OtherText
  }

  /**
   * The funding flow stores a count only together with its cost and only
   * after a funding type was chosen.
   */
  predicate WellFormed(ud: UserData) {
    (ud.requestedMembers.Some? <==> ud.pointsNeeded.Some?)
    && (ud.requestedMembers.Some? ==> ud.fundingType.Some?)
  }

  /** In a well-formed conversation the link step always finds the funding type and the cost. */
  lemma LinkStepHasEverything(ud: UserData)
    requires WellFormed(ud)
    requires ud.requestedMembers.Some?
    ensures RouteOf(ud) == LinkStep && ud.fundingType.Some? && ud.pointsNeeded.Some?
  {
  }

  const LINK_MARKER := "t.me/"

  /**
   * The channel identifier in a link: an `@name` is kept whole; otherwise
   * the piece after the first `t.me/` (ending at the next `t.me/`) is cut at
   * its first `/`; an invite code starting with `+` is kept, any other name
   * gets an `@`. Anything else is not a link.
   */
  function ExtractChannelId(link: string): (r: Option<string>)
    ensures StartsWith(link, "@") ==> r == Some(link)
    ensures !StartsWith(link, "@") ==> (r.Some? <==> Contains(link, LINK_MARKER))
    ensures r.Some? ==> |r.value| > 0 && (r.value[0] == '@' || r.value[0] == '+')
    ensures r.Some? && !StartsWith(link, "@") ==> '/' !in r.value
  {
    if StartsWith(link, "@") then Some(link)
    else if Contains(link, LINK_MARKER) then
      var seg := Split(Split(link, LINK_MARKER)[1], "/")[0];
      SplitHeadFree(Split(link, LINK_MARKER)[1], "/");
      ContainsChar(seg, '/');
      if StartsWith(seg, "+") then Some(seg) else Some("@" + seg)
    else None
  }

  /** No `t.me/` can start inside a piece without `.` that is followed by nothing or by `/`. */
  lemma NoMarkerInside(seg: string, post: string)
    requires '.' !in seg
    requires post == "" || post[0] == '/'
    ensures forall j :: 0 <= j < |seg| ==> !OccursAt(seg + post, LINK_MARKER, j)
  {
    var rest := seg + post;
    forall j | 0 <= j < |seg| ensures !OccursAt(rest, LINK_MARKER, j) {
      if j + 5 <= |rest| {
        assert rest[j..j + 5][1] == rest[j + 1];
        assert rest[j + 1] == if j + 1 < |seg| then seg[j + 1] else post[0];
      }
    }
  }

  /** Splitting at the first `t.me/` when `pre` holds none: the second piece starts at `rest`. */
  lemma MarkerSplit(pre: string, rest: string)
    requires forall j :: 0 <= j < |pre| ==> !OccursAt(pre + LINK_MARKER, LINK_MARKER, j)
    ensures Contains(pre + LINK_MARKER + rest, LINK_MARKER)
    ensures Split(pre + LINK_MARKER + rest, LINK_MARKER)[1] == Split(rest, LINK_MARKER)[0]
  {
    var head := pre + LINK_MARKER;
    var link := head + rest;
    assert |LINK_MARKER| == 5;
    assert link[|pre|..|pre| + 5] == LINK_MARKER;
    forall j | 0 <= j < |pre| ensures !OccursAt(link, LINK_MARKER, j) {
      assert !OccursAt(head, LINK_MARKER, j);
      assert link[j..j + 5] == head[j..j + 5];
    }
    assert OccursAt(link, LINK_MARKER, |pre|);
    assert IndexOf(link, LINK_MARKER) == Some(|pre|);
    assert link[|pre| + 5..] == rest;
  }

  /** The first `/`-piece of what follows `t.me/` is the segment itself. */
  lemma SegmentBeforeSlash(seg: string, post: string)
    requires '/' !in seg && '.' !in seg
    requires post == "" || post[0] == '/'
    ensures Split(Split(seg + post, LINK_MARKER)[0], "/")[0] == seg
  {
    var part := Split(seg + post, LINK_MARKER)[0];
    FirstMarkerPiece(seg, post);
    SlashCut(seg, part);
  }

  /** The piece before any `t.me/` starts with the segment, followed by nothing or by `/`. */
  lemma FirstMarkerPiece(seg: string, post: string)
    requires '.' !in seg
    requires post == "" || post[0] == '/'
    ensures var part := Split(seg + post, LINK_MARKER)[0];
      |seg| <= |part| && part[..|seg|] == seg && (|part| > |seg| ==> part[|seg|] == '/')
  {
    var rest := seg + post;
    NoMarkerInside(seg, post);
    var m := match IndexOf(rest, LINK_MARKER) case None => |rest| case Some(i) => i;
    assert m >= |seg|;
    assert Split(rest, LINK_MARKER)[0] == rest[..m];
  }

  /** Cutting at the first `/` a piece that starts with a `/`-free word followed by nothing or `/`. */
  lemma SlashCut(seg: string, part: string)
    requires '/' !in seg
    requires |seg| <= |part| && part[..|seg|] == seg && (|part| > |seg| ==> part[|seg|] == '/')
    ensures Split(part, "/")[0] == seg
  {
    if |part| == |seg| {
      assert part == seg;
      SplitNoSeparator(seg, '/');
    } else {
      var tail := part[|seg| + 1..];
      assert part[|seg|..] == [part[|seg|]] + tail;
      assert part == part[..|seg|] + part[|seg|..];
      assert part == seg + ['/'] + tail;
      SplitAfterWord(seg, '/', tail);
    }
  }

  /** The piece after `t.me/` in a link `pre + "t.me/" + seg + post`. */
  lemma LinkSegment(pre: string, seg: string, post: string)
    requires forall j :: 0 <= j < |pre| ==> !OccursAt(pre + LINK_MARKER, LINK_MARKER, j)
    requires '/' !in seg && '.' !in seg
    requires post == "" || post[0] == '/'
    ensures Contains(pre + LINK_MARKER + seg + post, LINK_MARKER)
    ensures Split(Split(pre + LINK_MARKER + seg + post, LINK_MARKER)[1], "/")[0] == seg
  {
    assert pre + LINK_MARKER + seg + post == pre + LINK_MARKER + (seg + post);
    MarkerSplit(pre, seg + post);
    SegmentBeforeSlash(seg, post);
  }

  /** What a link of the form `pre + "t.me/" + seg + post` yields. */
  lemma ExtractFromLink(pre: string, seg: string, post: string)
    requires |pre| > 0 ==> pre[0] != '@'
    requires forall j :: 0 <= j < |pre| ==> !OccursAt(pre + LINK_MARKER, LINK_MARKER, j)
    requires '/' !in seg && '.' !in seg
    requires post == "" || post[0] == '/'
    ensures ExtractChannelId(pre + LINK_MARKER + seg + post)
            == Some(if StartsWith(seg, "+") then seg else "@" + seg)
  {
    var link := pre + LINK_MARKER + seg + post;
    LinkSegment(pre, seg, post);
    assert link[0] == (if |pre| > 0 then pre[0] else 't');
  }

  /**
   * An `https://t.me/` link yields what follows the marker: `@name` for a
   * public channel, also when a message number follows, and the `+` code of
   * an invite link unchanged.
   */
  lemma ExtractHttpsLink(seg: string, post: string)
    requires '/' !in seg && '.' !in seg
    requires post == "" || post[0] == '/'
    ensures ExtractChannelId("https://t.me/" + seg + post)
            == Some(if StartsWith(seg, "+") then seg else "@" + seg)
  {
    var pre := "https://";
    var head := "https://t.me/";
    assert pre + LINK_MARKER == head;
    forall j | 0 <= j < |pre| ensures !OccursAt(head, LINK_MARKER, j) {
      assert head[j..j + 5][1] == head[j + 1];
    }
    ExtractFromLink(pre, seg, post);
    assert head + seg + post == pre + LINK_MARKER + seg + post;
  }

  /** Text without a `t.me/` and not starting with `@` is not a link. */
  lemma PlainTextIsNoLink(text: string)
    requires '/' !in text && (|text| == 0 || text[0] != '@')
    ensures ExtractChannelId(text) == None
  {
    forall j | 0 <= j < |text| ensures !OccursAt(text, LINK_MARKER, j) {
      if j + 5 <= |text| {
        assert text[j..j + 5][4] == text[j + 4];
      }
    }
  }

  lemma NoUnderscoreInNumber(n: int)
    ensures '_' !in IntToString(n)
  {
    var d := NatToString(if n < 0 then -n else n);
    assert forall i :: 0 <= i < |d| ==> IsDigit(d[i]);
    if n < 0 {
      assert IntToString(n) == "-" + d;
    }
  }

  /** `data.split("_")` for data that starts with two known words. */
  lemma SplitTwoWords(a: string, b: string, rest: string)
    requires '_' !in a && '_' !in b
    ensures Split(a + "_" + b + "_" + rest, "_") == [a, b] + Split(rest, "_")
  {
    assert a + "_" + b + "_" + rest == a + ['_'] + (b + ['_'] + rest);
    SplitAfterWord(a, '_', b + ['_'] + rest);
    SplitAfterWord(b, '_', rest);
  }

  const FUNDING_TYPE_PREFIX := "funding_type_"

  /** The funding type chosen by a `funding_type_<type>` button: `data.split("_")[2]`. */
  function FundingTypeFromCallback(data: string): (t: Option<string>)
    ensures t.Some? <==> StartsWith(data, FUNDING_TYPE_PREFIX)
    ensures t.Some? ==> '_' !in t.value
  {
    if StartsWith(data, FUNDING_TYPE_PREFIX) then
      var rest := data[|FUNDING_TYPE_PREFIX|..];
      assert data == "funding" + "_" + "type" + "_" + rest;
      SplitTwoWords("funding", "type", rest);
      SplitHeadFree(rest, "_");
      ContainsChar(Split(rest, "_")[0], '_');
      Some(Split(data, "_")[2])
    else None
  }

  /** The buttons `funding_type_channel` and `funding_type_group` choose `channel` and `group`. */
  lemma FundingTypeButtons(t: string)
    requires '_' !in t
    ensures FundingTypeFromCallback(FUNDING_TYPE_PREFIX + t) == Some(t)
  {
    var data := FUNDING_TYPE_PREFIX + t;
    assert data[..|FUNDING_TYPE_PREFIX|] == FUNDING_TYPE_PREFIX;
    assert data == "funding" + "_" + "type" + "_" + t;
    SplitTwoWords("funding", "type", t);
    SplitNoSeparator(t, '_');
  }

  /**
   * The request id in `approve_request_<id>` or `reject_request_<id>`:
   * `int(data.split("_")[2])`, or nothing when that part is missing or is
   * not a number.
   */
  function RequestIdFromCallback(data: string): (r: Option<int>)
    ensures !Contains(data, "_") ==> r.None?
  {
    var parts := Split(data, "_");
    if |parts| < 3 then None else ParseInt(parts[2])
  }

  /** The approve and reject buttons sent for a request lead back to that request. */
  lemma RequestButtonsRoundTrip(action: string, id: int)
    requires '_' !in action
    ensures RequestIdFromCallback(action + "_request_" + IntToString(id)) == Some(id)
  {
    var s := IntToString(id);
    NoUnderscoreInNumber(id);
    assert "_request_" == "_" + "request" + "_";
    assert action + "_request_" + s == action + "_" + "request" + "_" + s;
    SplitTwoWords(action, "request", s);
    SplitNoSeparator(s, '_');
    ParseIntRoundTrip(id);
  }

  const USERS_PAGE_PREFIX := "show_all_users_"

  /**
   * The page asked for by a `show_all_users_<page>` button:
   * `int(data.split("_")[3])`, and page 1 when that fails.
   */
  function PageFromCallback(data: string): (page: int)
    ensures !StartsWith(data, USERS_PAGE_PREFIX) ==> page == 1
  {
    if StartsWith(data, USERS_PAGE_PREFIX) then
      var parts := Split(data, "_");
      if |parts| < 4 then 1
      else match ParseInt(parts[3]) case Some(p) => p case None => 1
    else 1
  }

  /** `data.split("_")` for data made of three words and a last part, none holding `_`. */
  lemma SplitThreeWords(a: string, b: string, c: string, last: string)
    requires '_' !in a && '_' !in b && '_' !in c && '_' !in last
    ensures var parts := Split(a + "_" + b + "_" + c + "_" + last, "_");
      |parts| == 4 && parts[3] == last
  {
    var t := c + ['_'] + last;
    assert a + "_" + b + "_" + c + "_" + last == a + "_" + b + "_" + t;
    SplitTwoWords(a, b, t);
    SplitAfterWord(c, '_', last);
    SplitNoSeparator(last, '_');
  }

  /** `data.split("_")` for a `show_all_users_<page>` button whose page part has no `_`. */
  lemma UsersPageSplit(part: string)
    requires '_' !in part
    ensures StartsWith(USERS_PAGE_PREFIX + part, USERS_PAGE_PREFIX)
    ensures var parts := Split(USERS_PAGE_PREFIX + part, "_"); |parts| == 4 && parts[3] == part
  {
    var data := USERS_PAGE_PREFIX + part;
    assert data[..|USERS_PAGE_PREFIX|] == USERS_PAGE_PREFIX;
    assert data == "show" + "_" + "all" + "_" + "users" + "_" + part;
    SplitThreeWords("show", "all", "users", part);
  }

  /** The previous and next buttons, written with `str(page)`, are read back as that page. */
  lemma PageButtonsRoundTrip(page: int)
    ensures PageFromCallback(USERS_PAGE_PREFIX + IntToString(page)) == page
  {
    NoUnderscoreInNumber(page);
    UsersPageSplit(IntToString(page));
    ParseIntRoundTrip(page);
  }

  /** Callback data whose page part is not a number shows page 1. */
  lemma UnparsablePageIsFirst(junk: string)
    requires '_' !in junk && ParseInt(junk).None?
    ensures PageFromCallback(USERS_PAGE_PREFIX + junk) == 1
  {
    UsersPageSplit(junk);
  }
}
