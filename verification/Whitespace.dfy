/** What the two languages call whitespace, by code point. */
module Whitespace {

  /** Go's `unicode.IsSpace`, the set `strings.TrimSpace` removes. */
  predicate GoSpace(code: int) {
    || 0x09 <= code <= 0x0d || code == 0x20 || code == 0x85 || code == 0xa0
    || code == 0x1680 || 0x2000 <= code <= 0x200a || 0x2028 <= code <= 0x2029
    || code == 0x202f || code == 0x205f || code == 0x3000
  }

  /** Python's `str.isspace`, the set `str.strip` removes. */
  predicate PythonSpace(code: int) {
    || 0x09 <= code <= 0x0d || 0x1c <= code <= 0x20 || code == 0x85 || code == 0xa0
    || code == 0x1680 || 0x2000 <= code <= 0x200a || 0x2028 <= code <= 0x2029
    || code == 0x202f || code == 0x205f || code == 0x3000
  }

  /** Python calls four control characters whitespace that Go does not, and agrees on all others. */
  lemma SpacesCompared(code: int)
    ensures PythonSpace(code) <==> GoSpace(code) || 0x1c <= code <= 0x1f
  {
  }

  // Trimming removes blanks from both ends of a text, where a blank is the encoding, one to three units
  // long, of one whitespace character.

  /** Decoded Go texts hold one character per unit. */
  predicate GoRuneBlank(e: string) {
    |e| == 1 && GoSpace(e[0] as int)
  }

  /** Python strings, decoded headers included, hold one character per unit. */
  predicate PythonBlank(e: string) {
    |e| == 1 && PythonSpace(e[0] as int)
  }

  /** The last `n` units of `s`. */
  function Last(s: string, n: nat): string
    requires n <= |s|
  {
    s[|s| - n..]
  }

  /** Length of the blank `s` starts with, 0 for none. */
  function LeadingBlank(blank: string -> bool, s: string): (n: nat)
    ensures n <= |s|
  {
    if |s| >= 1 && blank(s[..1]) then 1
    else if |s| >= 2 && blank(s[..2]) then 2
    else if |s| >= 3 && blank(s[..3]) then 3
    else 0
  }

  /** Length of the blank `s` ends with, 0 for none. */
  function TrailingBlank(blank: string -> bool, s: string): (n: nat)
    ensures n <= |s|
  {
    if |s| >= 1 && blank(Last(s, 1)) then 1
    else if |s| >= 2 && blank(Last(s, 2)) then 2
    else if |s| >= 3 && blank(Last(s, 3)) then 3
    else 0
  }

  function TrimLeft(blank: string -> bool, s: string): string
    decreases |s|
  {
    var n := LeadingBlank(blank, s);
    if n == 0 then s else TrimLeft(blank, s[n..])
  }

  function TrimRight(blank: string -> bool, s: string): string
    decreases |s|
  {
    var n := TrailingBlank(blank, s);
    if n == 0 then s else TrimRight(blank, s[..|s| - n])
  }

  /** `strings.TrimSpace` and `str.strip`, over each language's own blanks. */
  function Trim(blank: string -> bool, s: string): string {
    TrimRight(blank, TrimLeft(blank, s))
  }

  lemma {:induction false} TrimLeftStops(blank: string -> bool, s: string)
    ensures LeadingBlank(blank, TrimLeft(blank, s)) == 0
    decreases |s|
  {
    var n := LeadingBlank(blank, s);
    if n > 0 { TrimLeftStops(blank, s[n..]); }
  }

  lemma {:induction false} TrimRightIsPrefix(blank: string -> bool, s: string)
    ensures TrimRight(blank, s) <= s
    decreases |s|
  {
    var n := TrailingBlank(blank, s);
    if n > 0 { TrimRightIsPrefix(blank, s[..|s| - n]); }
  }

  /** What is left of a text after trimming, if anything, does not start with a blank. */
  lemma TrimmedStart(blank: string -> bool, s: string)
    ensures var t := Trim(blank, s); t != "" ==> !blank([t[0]])
  {
    var t := TrimLeft(blank, s);
    TrimLeftStops(blank, s);
    TrimRightIsPrefix(blank, t);
    if t != "" { assert t[..1] == [t[0]]; }
  }

  // What trimming removes -------------------------------------------------------------------------

  function Flatten(parts: seq<string>): string {
    if parts == [] then "" else parts[0] + Flatten(parts[1..])
  }

  predicate AllBlank(blank: string -> bool, parts: seq<string>) {
    forall i | 0 <= i < |parts| :: blank(parts[i])
  }

  lemma TrimRightOnce(blank: string -> bool, s: string)
    ensures TrimRight(blank, s) ==
      if TrailingBlank(blank, s) == 0 then s else TrimRight(blank, s[..|s| - TrailingBlank(blank, s)])
  {
  }

  lemma {:induction false} FlattenSnoc(parts: seq<string>)
    requires parts != []
    ensures Flatten(parts) == Flatten(parts[..|parts| - 1]) + parts[|parts| - 1]
  {
    if |parts| > 1 {
      FlattenSnoc(parts[1..]);
      assert parts[1..][..|parts| - 2] == parts[..|parts| - 1][1..];
    }
  }

  lemma FlattenAppend(parts: seq<string>, e: string)
    ensures Flatten(parts + [e]) == Flatten(parts) + e
  {
    FlattenSnoc(parts + [e]);
    assert (parts + [e])[..|parts|] == parts;
  }

  lemma {:induction false} TrimLeftSplits(blank: string -> bool, s: string) returns (before: seq<string>)
    ensures AllBlank(blank, before) && s == Flatten(before) + TrimLeft(blank, s)
    decreases |s|
  {
    var n := LeadingBlank(blank, s);
    if n == 0 {
      before := [];
    } else {
      var rest := TrimLeftSplits(blank, s[n..]);
      before := [s[..n]] + rest;
      assert before[1..] == rest;
    }
  }

  lemma Associate(a: string, b: string, c: string)
    ensures a + (b + c) == a + b + c
  {
  }

  lemma AppendBlank(blank: string -> bool, text: string, parts: seq<string>, e: string) returns (longer: seq<string>)
    requires AllBlank(blank, parts) && blank(e)
    ensures AllBlank(blank, longer) && (text + Flatten(parts)) + e == text + Flatten(longer)
  {
    longer := parts + [e];
    FlattenAppend(parts, e);
    Associate(text, Flatten(parts), e);
  }

  lemma BlankAtEnd(blank: string -> bool, s: string)
    requires TrailingBlank(blank, s) > 0
    ensures var n := TrailingBlank(blank, s); s == s[..|s| - n] + Last(s, n) && blank(Last(s, n))
  {
  }

  lemma TrimRightStep(blank: string -> bool, s: string)
    requires TrailingBlank(blank, s) > 0
    ensures var n := TrailingBlank(blank, s);
      && s == s[..|s| - n] + Last(s, n) && blank(Last(s, n))
      && TrimRight(blank, s) == TrimRight(blank, s[..|s| - n])
  {
    BlankAtEnd(blank, s);
    TrimRightOnce(blank, s);
  }

  lemma ExtendSplit(blank: string -> bool, s: string, rest: seq<string>) returns (after: seq<string>)
    requires TrailingBlank(blank, s) > 0 && AllBlank(blank, rest)
    requires var head := s[..|s| - TrailingBlank(blank, s)]; head == TrimRight(blank, head) + Flatten(rest)
    ensures AllBlank(blank, after) && s == TrimRight(blank, s) + Flatten(after)
  {
    var n := TrailingBlank(blank, s);
    TrimRightStep(blank, s);
    after := AppendBlank(blank, TrimRight(blank, s[..|s| - n]), rest, Last(s, n));
  }

  lemma {:induction false} TrimRightSplits(blank: string -> bool, s: string) returns (after: seq<string>)
    ensures AllBlank(blank, after) && s == TrimRight(blank, s) + Flatten(after)
    decreases |s|
  {
    var n := TrailingBlank(blank, s);
    if n == 0 {
      after := [];
    } else {
      var rest := TrimRightSplits(blank, s[..|s| - n]);
      after := ExtendSplit(blank, s, rest);
    }
  }

  // Where every blank is one unit long -----------------------------------------------------------

  /** The blanks are the texts of one whitespace character. */
  ghost predicate OneUnit(blank: string -> bool, space: int -> bool) {
    forall e :: blank(e) <==> |e| == 1 && space(e[0] as int)
  }

  lemma UnitAtEnd(blank: string -> bool, space: int -> bool, s: string)
    requires OneUnit(blank, space) && s != ""
    ensures TrailingBlank(blank, s) == if space(s[|s| - 1] as int) then 1 else 0
  {
    assert Last(s, 1) == [s[|s| - 1]];
  }

  lemma {:induction false} TrimRightStops(blank: string -> bool, s: string)
    ensures TrailingBlank(blank, TrimRight(blank, s)) == 0
    decreases |s|
  {
    TrimRightOnce(blank, s);
    if TrailingBlank(blank, s) > 0 { TrimRightStops(blank, s[..|s| - TrailingBlank(blank, s)]); }
  }

  /** The text between two positions of `s`, with nothing but whitespace around it and none at its ends. */
  ghost predicate StrippedAt(space: int -> bool, s: string, t: string, i: int, j: int) {
    && 0 <= i <= j <= |s| && t == s[i..j]
    && (forall k | 0 <= k < i || j <= k < |s| :: space(s[k] as int))
    && (i < j ==> !space(s[i] as int) && !space(s[j - 1] as int))
  }

  /** `t` is `s` without the whitespace at both ends. */
  ghost predicate Stripped(space: int -> bool, s: string, t: string) {
    exists i, j :: StrippedAt(space, s, t, i, j)
  }

  predicate AllSpace(space: int -> bool, s: string) {
    forall k | 0 <= k < |s| :: space(s[k] as int)
  }

  lemma {:induction false} UnitsAreSpace(blank: string -> bool, space: int -> bool, parts: seq<string>)
    requires OneUnit(blank, space) && AllBlank(blank, parts)
    ensures AllSpace(space, Flatten(parts))
  {
    if parts != [] {
      assert blank(parts[0]);
      UnitsAreSpace(blank, space, parts[1..]);
    }
  }

  lemma StrippedBetween(space: int -> bool, before: string, t: string, after: string)
    requires AllSpace(space, before) && AllSpace(space, after)
    requires t != "" ==> !space(t[0] as int) && !space(t[|t| - 1] as int)
    ensures Stripped(space, before + t + after, t)
  {
    var i, s := |before|, before + t + after;
    assert s[i..i + |t|] == t;
    assert StrippedAt(space, s, t, i, i + |t|);
  }

  /** Trimming leaves what stands between the whitespace at both ends. */
  lemma TrimStrips(blank: string -> bool, space: int -> bool, s: string)
    requires OneUnit(blank, space)
    ensures Stripped(space, s, Trim(blank, s))
  {
    var t := Trim(blank, s);
    var before := TrimLeftSplits(blank, s);
    var after := TrimRightSplits(blank, TrimLeft(blank, s));
    Associate(Flatten(before), t, Flatten(after));
    UnitsAreSpace(blank, space, before);
    UnitsAreSpace(blank, space, after);
    TrimRightStops(blank, TrimLeft(blank, s));
    if t != "" {
      TrimmedStart(blank, s);
      UnitAtEnd(blank, space, t);
    }
    StrippedBetween(space, Flatten(before), t, Flatten(after));
  }

  lemma StrippedIsText(space: int -> bool, s: string, t: string)
    requires Stripped(space, s, t)
    ensures t == "" <==> forall k | 0 <= k < |s| :: space(s[k] as int)
  {
  }

  /** Go trims a decoded text to nothing exactly when every character of it is whitespace. */
  lemma TrimsToNothing(s: string)
    ensures Trim(GoRuneBlank, s) == "" <==> forall i | 0 <= i < |s| :: GoSpace(s[i] as int)
  {
    TrimStrips(GoRuneBlank, GoSpace, s);
    StrippedIsText(GoSpace, s, Trim(GoRuneBlank, s));
  }
}
