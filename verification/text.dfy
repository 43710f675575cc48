/**
 * The parts of Python's `str` behaviour that the bot's handlers rely on:
 * `startswith`, `in`, `split(sep)`, `split()`, `strip()`, `isdigit()`,
 * `replace(c, '')`, `sep.join(...)`, `str(n)` and `int(...)`.
 * Whitespace is what Python's `str.isspace()` accepts; digits are the
 * ASCII digits.
 */
module Text {
  import opened Base

  predicate StartsWith(s: string, p: string)
    ensures StartsWith(s, p) <==> |p| <= |s| && s == p + s[|p|..]
  {
    |p| <= |s| && s[..|p|] == p
  }

  /** `p` occurs in `s` starting at index `j`. */
  predicate OccursAt(s: string, p: string, j: int) {
    0 <= j && j + |p| <= |s| && s[j..j + |p|] == p
  }

  /** The first occurrence of `p` in `s` at or after index `k`. */
  function IndexFrom(s: string, p: string, k: nat): (r: Option<nat>)
    decreases |s| - k
    ensures r.Some? ==> k <= r.value && OccursAt(s, p, r.value)
    ensures r.Some? ==> forall j :: k <= j < r.value ==> !OccursAt(s, p, j)
    ensures r.None? ==> forall j :: k <= j ==> !OccursAt(s, p, j)
  {
    if k + |p| > |s| then None
    else if s[k..k + |p|] == p then Some(k)
    else IndexFrom(s, p, k + 1)
  }

  /** Python's `s.find(p)`, with `None` for -1: the first occurrence. */
  function IndexOf(s: string, p: string): (r: Option<nat>)
    ensures r.Some? ==> OccursAt(s, p, r.value)
    ensures r.Some? ==> forall j :: 0 <= j < r.value ==> !OccursAt(s, p, j)
    ensures r.None? ==> forall j :: !OccursAt(s, p, j)
  {
    IndexFrom(s, p, 0)
  }

  /** Python's `p in s`. */
  predicate Contains(s: string, p: string) {
    IndexOf(s, p).Some?
  }

  lemma OccursAtChar(s: string, c: char, j: int)
    ensures OccursAt(s, [c], j) <==> 0 <= j < |s| && s[j] == c
  {
    if 0 <= j < |s| {
      assert s[j..j + 1] == [s[j]];
    }
  }

  /** For a one-character pattern, containment is membership. */
  lemma ContainsChar(s: string, c: char)
    ensures Contains(s, [c]) <==> c in s
  {
    if c in s {
      var j :| 0 <= j < |s| && s[j] == c;
      OccursAtChar(s, c, j);
    }
    if Contains(s, [c]) {
      var j := IndexOf(s, [c]).value;
      OccursAtChar(s, c, j);
    }
  }

  /** Python's `s.split(sep)` for a non-empty separator. */
  function Split(s: string, sep: string): (parts: seq<string>)
    requires |sep| > 0
    decreases |s|
    ensures 1 <= |parts|
    ensures Contains(s, sep) <==> 2 <= |parts|
  {
    match IndexOf(s, sep)
    case None => [s]
    case Some(i) => [s[..i]] + Split(s[i + |sep|..], sep)
  }

  /** Python's `sep.join(parts)`. */
  function Join(parts: seq<string>, sep: string): (r: string)
    ensures |parts| == 0 ==> r == ""
    ensures |parts| > 0 ==> StartsWith(r, parts[0])
  {
    if |parts| == 0 then ""
    else if |parts| == 1 then parts[0]
    else parts[0] + sep + Join(parts[1..], sep)
  }

  /** Joining the pieces of a split with the same separator gives back the text. */
  lemma {:induction false} JoinSplit(s: string, sep: string)
    requires |sep| > 0
    ensures Join(Split(s, sep), sep) == s
    decreases |s|
  {
    var found, i := SplitStep(s, sep);
    if found {
      var rest := s[i + |sep|..];
      JoinSplit(rest, sep);
      SliceAround(s, i, i + |sep|);
      JoinAroundSeparator(s[..i], sep, rest, Split(rest, sep));
    }
  }

  /** One step of a split: the text is whole, or cut at the first separator. */
  lemma SplitStep(s: string, sep: string) returns (found: bool, i: int)
    requires |sep| > 0
    ensures !found ==> Split(s, sep) == [s]
    ensures found ==> 0 <= i && i + |sep| <= |s| && s[i..i + |sep|] == sep
    ensures found ==> Split(s, sep) == [s[..i]] + Split(s[i + |sep|..], sep)
  {
    match IndexOf(s, sep)
    case None =>
      found, i := false, 0;
    case Some(k) =>
      found, i := true, k;
  }

  /** A head, joined to parts that join to a rest, gives head, separator, rest. */
  lemma JoinAroundSeparator(head: string, sep: string, rest: string, tail: seq<string>)
    requires |tail| > 0 && Join(tail, sep) == rest
    ensures Join([head] + tail, sep) == head + (sep + rest)
  {
    JoinCons(head, tail, sep);
  }

  /** A part put in front of further parts is joined to them by one separator. */
  lemma JoinCons(w: string, rest: seq<string>, sep: string)
    requires |rest| > 0
    ensures Join([w] + rest, sep) == w + (sep + Join(rest, sep))
  {
    HeadAndTail([w] + rest);
    assert ([w] + rest)[1..] == rest;
    JoinTwoOrMore([w] + rest, sep);
  }

  /** A text is what comes before a slice, the slice, and what comes after it. */
  lemma SliceAround(s: string, i: int, j: int)
    requires 0 <= i <= j <= |s|
    ensures s == s[..i] + (s[i..j] + s[j..])
  {
  }

  /** The first piece of a split holds no occurrence of the separator. */
  lemma SplitHeadFree(s: string, sep: string)
    requires |sep| > 0
    ensures !Contains(Split(s, sep)[0], sep)
  {
    match IndexOf(s, sep)
    case None =>
    case Some(i) =>
      var h := s[..i];
      if Contains(h, sep) {
        var j := IndexOf(h, sep).value;
        assert h[j..j + |sep|] == s[j..j + |sep|];
        assert OccursAt(s, sep, j);
      }
  }

  /** Splitting at a one-character separator that the first word lacks. */
  lemma SplitAfterWord(w: string, c: char, rest: string)
    requires c !in w
    ensures Split(w + [c] + rest, [c]) == [w] + Split(rest, [c])
  {
    var s := w + [c] + rest;
    OccursAtChar(s, c, |w|);
    forall j | 0 <= j < |w| ensures !OccursAt(s, [c], j) {
      OccursAtChar(s, c, j);
    }
    assert IndexOf(s, [c]) == Some(|w|);
    assert s[..|w|] == w;
    assert s[|w| + 1..] == rest;
  }

  /** Splitting text that lacks a one-character separator gives the text alone. */
  lemma SplitNoSeparator(s: string, c: char)
    requires c !in s
    ensures Split(s, [c]) == [s]
  {
    ContainsChar(s, c);
  }

  /**
   * Python's `str.isspace()`: the ASCII controls 9 to 13 and 28 to 31, the
   * space, and the Unicode spaces and separators. `strip()` and `split()`
   * skip exactly these; `int()` skips fewer (`IsIntSpace`).
   */
  predicate IsSpace(c: char)
    ensures c == ' ' || c == '\t' || c == '\n' || c == '\r' ==> IsSpace(c)
    ensures '!' <= c <= '~' ==> !IsSpace(c)
  {
    var n := c as int;
    (9 <= n <= 13) || (28 <= n <= 32) || n == 0x85 || n == 0xA0 || n == 0x1680
    || (0x2000 <= n <= 0x200A) || n == 0x2028 || n == 0x2029 || n == 0x202F
    || n == 0x205F || n == 0x3000
  }

  predicate NoSpace(s: string) {
    forall i :: 0 <= i < |s| ==> !IsSpace(s[i])
  }

  function TrimStart(s: string): (r: string)
    ensures |r| <= |s| && r == s[|s| - |r|..]
    ensures |r| > 0 ==> !IsSpace(r[0])
    ensures forall i :: 0 <= i < |s| - |r| ==> IsSpace(s[i])
  {
    if |s| > 0 && IsSpace(s[0]) then
      var r := TrimStart(s[1..]);
      assert forall i :: 1 <= i < |s| ==> s[i] == s[1..][i - 1];
      r
    else s
  }

  function TrimEnd(s: string): (r: string)
    ensures |r| <= |s| && r == s[..|r|]
    ensures |r| > 0 ==> !IsSpace(r[|r| - 1])
    ensures forall i :: |r| <= i < |s| ==> IsSpace(s[i])
  {
    if |s| > 0 && IsSpace(s[|s| - 1]) then TrimEnd(s[..|s| - 1]) else s
  }

  /** Python's `s.strip()`. */
  function Strip(s: string): (r: string)
    ensures |r| > 0 ==> !IsSpace(r[0]) && !IsSpace(r[|r| - 1])
    ensures r == [] <==> forall i :: 0 <= i < |s| ==> IsSpace(s[i])
    ensures NoSpace(s) ==> r == s
    ensures exists i :: PaddedAt(s, r, i)
  {
    StripFacts(s);
    StripSlice(s);
    TrimEnd(TrimStart(s))
  }

  lemma StripFacts(s: string)
    ensures var r := TrimEnd(TrimStart(s));
      (r == [] <==> forall i :: 0 <= i < |s| ==> IsSpace(s[i])) && (NoSpace(s) ==> r == s)
  {
    var t := TrimStart(s);
    var k := |s| - |t|;
    var r := TrimEnd(t);
    if |t| > 0 {
      assert s[k] == t[0];
    }
  }

  /** `r` sits in `s` at offset `i`, with only whitespace before and after it. */
  predicate PaddedAt(s: string, r: string, i: int) {
    0 <= i && i + |r| <= |s| && r == s[i..i + |r|]
    && (forall k :: 0 <= k < i ==> IsSpace(s[k])) && (forall k :: i + |r| <= k < |s| ==> IsSpace(s[k]))
  }

  /** The stripped text is a slice of the text with only whitespace around it. */
  lemma StripSlice(s: string)
    ensures PaddedAt(s, TrimEnd(TrimStart(s)), |s| - |TrimStart(s)|)
  {
    var t := TrimStart(s);
    var r := TrimEnd(t);
    PaddedBetween(s, t, r);
  }

  /** A prefix `r` of a suffix `t` of `s`, with only whitespace cut off on either side. */
  lemma PaddedBetween(s: string, t: string, r: string)
    requires |t| <= |s| && t == s[|s| - |t|..] && |r| <= |t| && r == t[..|r|]
    requires forall j :: 0 <= j < |s| - |t| ==> IsSpace(s[j])
    requires forall j :: |r| <= j < |t| ==> IsSpace(t[j])
    ensures PaddedAt(s, r, |s| - |t|)
  {
    var k := |s| - |t|;
    assert r == s[k..k + |r|];
    forall j | k + |r| <= j < |s| ensures IsSpace(s[j]) {
      assert s[j] == t[j - k];
    }
  }

  /** The index of the first whitespace character of `s`, or `|s|`. */
  function SpaceIndex(s: string): (n: nat)
    ensures n <= |s|
    ensures forall i :: 0 <= i < n ==> !IsSpace(s[i])
    ensures n < |s| ==> IsSpace(s[n])
  {
    if |s| == 0 || IsSpace(s[0]) then 0 else 1 + SpaceIndex(s[1..])
  }

  /** Python's `s.split()`: the maximal runs of non-whitespace, in order. */
  function Words(s: string): (ws: seq<string>)
    ensures ws == [] <==> forall i :: 0 <= i < |s| ==> IsSpace(s[i])
    decreases |s|
  {
    var t := TrimStart(s);
    if |t| == 0 then []
    else
      var n := SpaceIndex(t);
      [t[..n]] + Words(t[n..])
  }

  /** Every word is non-empty and holds no whitespace. */
  lemma {:induction false} WordsAreWords(s: string)
    ensures forall k :: 0 <= k < |Words(s)| ==> |Words(s)[k]| > 0 && NoSpace(Words(s)[k])
    decreases |s|
  {
    var t := TrimStart(s);
    if |t| > 0 {
      var n := SpaceIndex(t);
      assert n > 0;
      var rest := Words(t[n..]);
      WordsAreWords(t[n..]);
      assert Words(s) == [t[..n]] + rest;
      forall k | 0 <= k < |Words(s)| ensures |Words(s)[k]| > 0 && NoSpace(Words(s)[k]) {
        if k > 0 {
          assert Words(s)[k] == rest[k - 1];
        }
      }
    }
  }

  /** A word runs up to the first whitespace character after it. */
  lemma {:induction false} SpaceIndexAfterWord(w: string, rest: string)
    requires NoSpace(w)
    requires rest == [] || IsSpace(rest[0])
    ensures SpaceIndex(w + rest) == |w|
  {
    if |w| > 0 {
      assert (w + rest)[1..] == w[1..] + rest;
      SpaceIndexAfterWord(w[1..], rest);
    } else {
      assert w + rest == rest;
    }
  }

  /** A word followed by whitespace, or by nothing, is the first word. */
  lemma WordsCons(w: string, rest: string)
    requires |w| > 0 && NoSpace(w)
    requires rest == [] || IsSpace(rest[0])
    ensures Words(w + rest) == [w] + Words(rest)
  {
    var s := w + rest;
    assert s[0] == w[0];
    assert TrimStart(s) == s;
    SpaceIndexAfterWord(w, rest);
    assert s[..|w|] == w && s[|w|..] == rest;
  }

  /** Leading whitespace changes no word. */
  lemma WordsSkipSpace(c: char, s: string)
    requires IsSpace(c)
    ensures Words([c] + s) == Words(s)
  {
    assert ([c] + s)[1..] == s;
    assert TrimStart([c] + s) == TrimStart(s);
  }

  /** Empty text has no words. */
  lemma WordsOfNothing()
    ensures Words([]) == []
  {
    assert TrimStart([]) == [];
  }

  /** A single word is its own only word. */
  lemma WordsOfOne(w: string)
    requires |w| > 0 && NoSpace(w)
    ensures Words(w) == [w]
  {
    WordsCons(w, []);
    AppendNothing(w);
    WordsOfNothing();
    AppendNothing([w]);
  }

  /** Appending nothing changes nothing. */
  lemma AppendNothing<T>(s: seq<T>)
    ensures s + [] == s
  {
  }

  /** Two or more parts join as the first, a separator, and the rest joined. */
  lemma JoinTwoOrMore(ws: seq<string>, sep: string)
    requires |ws| >= 2
    ensures Join(ws, sep) == ws[0] + (sep + Join(ws[1..], sep))
  {
    var j := Join(ws[1..], sep);
    assert ws[0] + sep + j == ws[0] + (sep + j);
  }

  /** Splitting words joined by single spaces gives back the words. */
  lemma {:induction false} WordsOfJoin(ws: seq<string>)
    requires forall k :: 0 <= k < |ws| ==> |ws[k]| > 0 && NoSpace(ws[k])
    ensures Words(Join(ws, " ")) == ws
    decreases |ws|
  {
    if |ws| == 0 {
      WordsOfNothing();
    } else if |ws| == 1 {
      WordsOfOne(ws[0]);
      assert ws == [ws[0]];
    } else {
      WordsOfJoin(ws[1..]);
      WordsOfJoinStep(ws);
    }
  }

  /** The first word in front of words that already split back. */
  lemma WordsOfJoinStep(ws: seq<string>)
    requires |ws| >= 2 && |ws[0]| > 0 && NoSpace(ws[0])
    requires Words(Join(ws[1..], " ")) == ws[1..]
    ensures Words(Join(ws, " ")) == ws
  {
    var j := Join(ws[1..], " ");
    JoinTwoOrMore(ws, " ");
    WordsCons(ws[0], " " + j);
    WordsSkipSpace(' ', j);
    HeadAndTail(ws);
  }

  /** A non-empty sequence is its head followed by its tail. */
  lemma HeadAndTail<T>(s: seq<T>)
    requires |s| > 0
    ensures [s[0]] + s[1..] == s
  {
  }

  /** A first word and further words, joined by spaces, split back into themselves. */
  lemma WordsOfCommand(command: string, args: seq<string>)
    requires |command| > 0 && NoSpace(command)
    requires forall k :: 0 <= k < |args| ==> |args[k]| > 0 && NoSpace(args[k])
    ensures Words(Join([command] + args, " ")) == [command] + args
  {
    var ws := [command] + args;
    forall k | 0 <= k < |ws| ensures |ws[k]| > 0 && NoSpace(ws[k]) {
      if k > 0 {
        assert ws[k] == args[k - 1];
      }
    }
    WordsOfJoin(ws);
  }

  /** Words joined by spaces start with the first word. */
  lemma JoinStartsWithFirst(w: string, rest: seq<string>)
    requires |rest| > 0
    ensures StartsWith(Join([w] + rest, " "), w)
  {
    var ws := [w] + rest;
    assert ws[0] == w && ws[1..] == rest;
    var text := w + " " + Join(rest, " ");
    assert Join(ws, " ") == text;
    assert text[..|w|] == w;
  }

  /** A text that differs from `p` at an index within both does not start with `p`. */
  lemma CharRulesOutPrefix(s: string, p: string, i: int)
    requires 0 <= i < |p| && i < |s| && s[i] != p[i]
    ensures !StartsWith(s, p)
  {
    if |p| <= |s| {
      assert s[..|p|][i] != p[i];
    }
  }

  /** Python's `s.replace(c, '')`. */
  function RemoveChar(s: string, c: char): (r: string)
    ensures c !in r
    ensures |r| <= |s|
    ensures c !in s ==> r == s
  {
    if |s| == 0 then ""
    else (if s[0] == c then "" else [s[0]]) + RemoveChar(s[1..], c)
  }

  predicate IsDigit(c: char) {
    '0' <= c <= '9'
  }

  predicate AllDigits(s: string) {
    forall i :: 0 <= i < |s| ==> IsDigit(s[i])
  }

  /** Python's `s.isdigit()` on ASCII text. */
  predicate IsDigits(s: string)
    ensures IsDigits(s) ==> |s| > 0 && NoSpace(s) && s[0] != '-' && s[0] != '+'
  {
    |s| > 0 && AllDigits(s)
  }

  /** The decimal value of a string of digits. */
  function DigitsValue(s: string): nat
    requires AllDigits(s)
  {
    if |s| == 0 then 0
    else 10 * DigitsValue(s[..|s| - 1]) + (s[|s| - 1] as int - '0' as int)
  }

  function DigitChar(d: nat): (c: char)
    requires d < 10
    ensures IsDigit(c) && c as int - '0' as int == d
  {
    ('0' as int + d) as char
  }

  /** Python's `str(n)` for a non-negative integer. */
  function NatToString(n: nat): (s: string)
    ensures IsDigits(s)
    ensures NoSpace(s)
  {
    if n < 10 then [DigitChar(n)] else NatToString(n / 10) + [DigitChar(n % 10)]
  }

  /** Python's `str(n)`. */
  function IntToString(n: int): (s: string)
    ensures |s| > 0 && NoSpace(s)
  {
    if n < 0 then
      var d := NatToString(-n);
      assert forall i :: 1 <= i < |"-" + d| ==> ("-" + d)[i] == d[i - 1];
      "-" + d
    else NatToString(n)
  }

  /** Reading back the digits that `str(n)` writes gives `n`. */
  lemma {:induction false} DigitsRoundTrip(n: nat)
    ensures DigitsValue(NatToString(n)) == n
    decreases n
  {
    if n >= 10 {
      var s := NatToString(n);
      DigitsRoundTrip(n / 10);
      assert s[..|s| - 1] == NatToString(n / 10);
    }
  }

  /**
   * The whitespace `int()` skips around a number. CPython's `int(str)` turns
   * every non-ASCII whitespace character into a space but keeps ASCII
   * characters as they are, and then skips only 9 to 13 and the space; so
   * the separators 28 to 31, whitespace to `isspace()`, make the text invalid.
   */
  predicate IsIntSpace(c: char)
    ensures IsIntSpace(c) ==> IsSpace(c)
    ensures 28 <= c as int <= 31 ==> !IsIntSpace(c)
    ensures IsSpace(c) && !(28 <= c as int <= 31) ==> IsIntSpace(c)
  {
    IsSpace(c) && !(28 <= c as int <= 31)
  }

  function TrimIntStart(s: string): (r: string)
    ensures |r| <= |s| && r == s[|s| - |r|..]
    ensures |r| > 0 ==> !IsIntSpace(r[0])
    ensures forall i :: 0 <= i < |s| - |r| ==> IsIntSpace(s[i])
  {
    if |s| > 0 && IsIntSpace(s[0]) then
      var r := TrimIntStart(s[1..]);
      assert forall i :: 1 <= i < |s| ==> s[i] == s[1..][i - 1];
      r
    else s
  }

  function TrimIntEnd(s: string): (r: string)
    ensures |r| <= |s| && r == s[..|r|]
    ensures |r| > 0 ==> !IsIntSpace(r[|r| - 1])
    ensures forall i :: |r| <= i < |s| ==> IsIntSpace(s[i])
  {
    if |s| > 0 && IsIntSpace(s[|s| - 1]) then TrimIntEnd(s[..|s| - 1]) else s
  }

  /** The text `int()` reads: `s` with the whitespace it skips cut from both ends. */
  function IntStrip(s: string): (r: string)
    ensures |r| > 0 ==> !IsIntSpace(r[0]) && !IsIntSpace(r[|r| - 1])
    ensures |s| > 0 && !IsIntSpace(s[0]) && !IsIntSpace(s[|s| - 1]) ==> r == s
  {
    TrimIntEnd(TrimIntStart(s))
  }

  /** Python's `int(s)` in base 10: surrounding whitespace, an optional sign, then digits. */
  function ParseInt(s: string): (r: Option<int>)
    ensures r.Some? ==> IntStrip(s) != []
  {
    var t := IntStrip(s);
    if |t| > 0 && t[0] == '-' then
      match ParseUnsigned(t[1..])
      case None => None
      case Some(n) => Some(-n)
    else if |t| > 0 && t[0] == '+' then ParseUnsigned(t[1..])
    else ParseUnsigned(t)
  }

  /** A non-empty run of digits, read as a number. */
  function ParseUnsigned(t: string): (r: Option<int>)
    ensures r.Some? ==> r.value >= 0
  {
    if IsDigits(t) then Some(DigitsValue(t)) else None
  }

  /**
   * A separator control before a number: `int()` refuses the text as it
   * stands, and reads the number once `strip()` has removed the control.
   */
  lemma SeparatorBeforeNumber()
    ensures ParseInt([28 as char, '5']) == None
    ensures ParseInt(Strip([28 as char, '5'])) == Some(5)
  {
    SeparatorRefused();
    SeparatorStripped();
    FiveRead();
  }

  lemma SeparatorRefused()
    ensures ParseInt([28 as char, '5']) == None
  {
    var s := [28 as char, '5'];
    assert IntStrip(s) == s;
    assert !IsDigits(s) by { assert !IsDigit(s[0]); }
  }

  lemma SeparatorStripped()
    ensures Strip([28 as char, '5']) == ['5']
  {
    var s := [28 as char, '5'];
    assert s[1..] == ['5'];
    assert TrimStart(['5']) == ['5'];
    assert TrimStart(s) == ['5'];
    assert TrimEnd(['5']) == ['5'];
  }

  lemma FiveRead()
    ensures ParseInt(['5']) == Some(5)
  {
    assert IntStrip(['5']) == ['5'];
    assert IsDigits(['5']);
    assert DigitsValue(['5']) == 5;
  }

  /** `int(str(n)) == n`. */
  /** Text without whitespace is read by `int()` as it stands. */
  lemma IntStripKeeps(s: string)
    requires |s| > 0 && NoSpace(s)
    ensures IntStrip(s) == s
  {
    assert !IsSpace(s[0]) && !IsSpace(s[|s| - 1]);
  }

  lemma ParseIntRoundTrip(n: int)
    ensures ParseInt(IntToString(n)) == Some(n)
  {
    var m: nat := if n < 0 then -n else n;
    var d := NatToString(m);
    DigitsRoundTrip(m);
    assert ParseUnsigned(d) == Some(m);
    var s := IntToString(n);
    IntStripKeeps(s);
    if n < 0 {
      assert s[0] == '-' && s[1..] == d;
    } else {
      assert s == d && IsDigit(s[0]);
    }
  }

}
