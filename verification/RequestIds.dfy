/**
 Request identifiers: the two normalisers, the generators, and their agreement.

 A header value is a string of bytes, one `char` per byte. Go reads such a string as UTF-8;
 Starlette decodes it as Latin-1, which leaves the representation unchanged.
 */
module RequestIds {
  import opened Wrappers
  import opened Whitespace
  import opened Numerals

  const MAX_LENGTH := 128
  const UINT64 := 0x1_0000_0000_0000_0000
  const INT64_MAX := 0x7fff_ffff_ffff_ffff

  predicate Visible(c: char) { '!' <= c <= '~' }

  predicate AllVisible(s: string) {
    forall i | 0 <= i < |s| :: Visible(s[i])
  }

  /** What both services promise about an identifier they use. */
  predicate WellFormed(id: string) {
    1 <= |id| <= MAX_LENGTH && AllVisible(id)
  }

  predicate Continuation(c: char) { 0x80 <= c as int <= 0xbf }

  /** `e` is the UTF-8 encoding of one character Go calls whitespace. */
  predicate GoBlank(e: string) {
    match |e|
    case 1 => e[0] as int < 0x80 && GoSpace(e[0] as int)
    case 2 =>
      && 0xc2 <= e[0] as int <= 0xdf && Continuation(e[1])
      && GoSpace((e[0] as int - 0xc0) * 0x40 + (e[1] as int - 0x80))
    case 3 =>
      && 0xe0 <= e[0] as int <= 0xef && Continuation(e[1]) && Continuation(e[2])
      && var code := (e[0] as int - 0xe0) * 0x1000 + (e[1] as int - 0x80) * 0x40 + (e[2] as int - 0x80);
         0x800 <= code && GoSpace(code)
    case _ => false
  }

  /** The UTF-8 encoding of a code point below 0x10000, one `char` per byte. */
  function Utf8(code: int): string
    requires 0 <= code < 0x1_0000
  {
    if code < 0x80 then [code as char]
    else if code < 0x800 then [(0xc0 + code / 0x40) as char, (0x80 + code % 0x40) as char]
    else [(0xe0 + code / 0x1000) as char, (0x80 + code / 0x40 % 0x40) as char, (0x80 + code % 0x40) as char]
  }

  lemma Utf8Bytes(code: int)
    requires 0x800 <= code < 0x1_0000
    ensures code / 0x1000 < 0x10 && (code / 0x1000) * 0x1000 + (code / 0x40 % 0x40) * 0x40 + code % 0x40 == code
  {
    assert code / 0x1000 == code / 0x40 / 0x40;
  }

  lemma Utf8OfThree(a: int, b: int, c: int)
    requires 0 <= a < 0x10 && 0 <= b < 0x40 && 0 <= c < 0x40
    ensures var code := a * 0x1000 + b * 0x40 + c;
      code / 0x1000 == a && code / 0x40 % 0x40 == b && code % 0x40 == c
  {
    assert (a * 0x1000 + b * 0x40 + c) / 0x40 == a * 0x40 + b;
  }

  lemma GoBlankCode(e: string) returns (code: int)
    requires GoBlank(e)
    ensures 0 <= code < 0x1_0000 && GoSpace(code) && e == Utf8(code)
  {
    if |e| == 1 {
      code := e[0] as int;
    } else if |e| == 2 {
      code := (e[0] as int - 0xc0) * 0x40 + (e[1] as int - 0x80);
    } else {
      var a, b, c := e[0] as int - 0xe0, e[1] as int - 0x80, e[2] as int - 0x80;
      Utf8OfThree(a, b, c);
      code := a * 0x1000 + b * 0x40 + c;
    }
  }

  /** Go's blanks are the UTF-8 encodings of its whitespace characters, and nothing else. */
  lemma GoBlankMeans(e: string)
    ensures GoBlank(e) <==> exists code :: 0 <= code < 0x1_0000 && GoSpace(code) && e == Utf8(code)
  {
    if GoBlank(e) {
      var code := GoBlankCode(e);
    }
    if code :| 0 <= code < 0x1_0000 && GoSpace(code) && e == Utf8(code) {
      if code >= 0x800 { Utf8Bytes(code); }
    }
  }

  /** `validRequestID`: the empty string stands for a rejected value. */
  function ValidRequestId(raw: string): string {
    var value := Trim(GoBlank, raw);
    if value == "" || |value| > MAX_LENGTH then ""
    else if exists i | 0 <= i < |value| :: !Visible(value[i]) then ""
    else value
  }

  /** `_normalise_request_id`. */
  function NormaliseRequestId(raw: Option<string>): Option<string> {
    match raw
    case None => None
    case Some(text) =>
      var value := Trim(PythonBlank, text);
      if |value| == 0 || |value| > MAX_LENGTH then None
      else if exists i | 0 <= i < |value| :: value[i] < '!' || value[i] > '~' then None
      else Some(value)
  }

  // ---------------------------------------------------------------------------------------------
  // What the normalisers accept
  // ---------------------------------------------------------------------------------------------

  /** `raw` is `id` between two runs of blanks. */
  ghost predicate Padded(blank: string -> bool, raw: string, id: string) {
    exists before: seq<string>, after: seq<string> ::
      AllBlank(blank, before) && AllBlank(blank, after) && raw == Flatten(before) + id + Flatten(after)
  }

  predicate Suffix(a: string, b: string) {
    |a| <= |b| && Last(b, |a|) == a
  }

  /** Blanks are short and share no byte with an identifier. */
  ghost predicate Hidden(blank: string -> bool) {
    forall a | blank(a) :: 1 <= |a| <= 3 && forall i | 0 <= i < |a| :: !Visible(a[i])
  }

  /** Moreover no blank is a proper prefix or suffix of another. */
  ghost predicate Unambiguous(blank: string -> bool) {
    && Hidden(blank)
    && forall a, b | blank(a) && blank(b) :: (a <= b ==> a == b) && (Suffix(a, b) ==> a == b)
  }

  /** The byte classes of a UTF-8 encoding of one to three bytes that is no visible ASCII character. */
  predicate Utf8Shape(e: string) {
    || (|e| == 1 && e[0] as int < 0x80 && !Visible(e[0]))
    || (|e| == 2 && 0xc2 <= e[0] as int <= 0xdf && Continuation(e[1]))
    || (|e| == 3 && 0xe0 <= e[0] as int <= 0xef && Continuation(e[1]) && Continuation(e[2]))
  }

  lemma Utf8Hidden(a: string)
    requires Utf8Shape(a)
    ensures 1 <= |a| <= 3 && !Continuation(a[0]) && forall i | 0 <= i < |a| :: !Visible(a[i])
  {
  }

  lemma Utf8PrefixFree(a: string, b: string)
    requires Utf8Shape(a) && Utf8Shape(b) && a <= b
    ensures a == b
  {
    assert a[0] == b[0];
  }

  lemma Utf8Tail(e: string, i: nat)
    requires Utf8Shape(e) && 0 < i < |e|
    ensures Continuation(e[i])
  {
  }

  lemma Utf8SuffixFree(a: string, b: string)
    requires Utf8Shape(a) && Utf8Shape(b) && Suffix(a, b)
    ensures a == b
  {
    var k := |b| - |a|;
    Utf8Hidden(a);
    if k > 0 { Utf8Tail(b, k); }
    assert Last(b, |a|)[0] == b[k];
  }

  lemma GoUnambiguous()
    ensures Unambiguous(GoBlank)
  {
    forall a | GoBlank(a) ensures Utf8Shape(a) && 1 <= |a| <= 3 && forall i | 0 <= i < |a| :: !Visible(a[i]) {
      Utf8Hidden(a);
    }
    forall a, b | GoBlank(a) && GoBlank(b)
      ensures (a <= b ==> a == b) && (Suffix(a, b) ==> a == b)
    {
      if a <= b { Utf8PrefixFree(a, b); }
      if Suffix(a, b) { Utf8SuffixFree(a, b); }
    }
  }

  lemma PythonUnambiguous()
    ensures Unambiguous(PythonBlank)
  {
  }

  lemma LeadingBlankIs(blank: string -> bool, e: string, rest: string)
    requires Unambiguous(blank) && blank(e)
    ensures LeadingBlank(blank, e + rest) == |e| && (e + rest)[|e|..] == rest
  {
    var s := e + rest;
    var n := LeadingBlank(blank, s);
    assert s[..|e|] == e;
    assert s[..n] == e[..n];
  }

  lemma TrailingBlankIs(blank: string -> bool, rest: string, e: string)
    requires Unambiguous(blank) && blank(e)
    ensures TrailingBlank(blank, rest + e) == |e| && (rest + e)[..|rest + e| - |e|] == rest
  {
    var s := rest + e;
    var n := TrailingBlank(blank, s);
    assert Last(s, |e|) == e;
    assert Suffix(Last(s, n), e) || Suffix(e, Last(s, n));
  }

  lemma BlankStart(blank: string -> bool, s: string)
    requires Hidden(blank) && LeadingBlank(blank, s) > 0
    ensures !Visible(s[0])
  {
    var e := s[..LeadingBlank(blank, s)];
    assert blank(e) && e[0] == s[0];
  }

  lemma BlankEnd(blank: string -> bool, s: string)
    requires Hidden(blank) && TrailingBlank(blank, s) > 0
    ensures !Visible(s[|s| - 1])
  {
    var e := Last(s, TrailingBlank(blank, s));
    assert blank(e) && e[|e| - 1] == s[|s| - 1];
  }

  lemma {:induction false} TrimLeftStrips(blank: string -> bool, before: seq<string>, id: string)
    requires Unambiguous(blank) && AllBlank(blank, before) && id != "" && Visible(id[0])
    ensures TrimLeft(blank, Flatten(before) + id) == id
    decreases |before|
  {
    if before == [] {
      assert Flatten(before) + id == id;
      if LeadingBlank(blank, id) > 0 { BlankStart(blank, id); }
    } else {
      var rest := Flatten(before[1..]);
      assert Flatten(before) + id == before[0] + (rest + id);
      LeadingBlankIs(blank, before[0], rest + id);
      TrimLeftStrips(blank, before[1..], id);
    }
  }

  lemma {:induction false} TrimRightStrips(blank: string -> bool, id: string, after: seq<string>)
    requires Unambiguous(blank) && AllBlank(blank, after) && id != "" && Visible(id[|id| - 1])
    ensures TrimRight(blank, id + Flatten(after)) == id
    decreases |after|
  {
    if after == [] {
      assert id + Flatten(after) == id;
      if TrailingBlank(blank, id) > 0 { BlankEnd(blank, id); }
    } else {
      var rest, e := after[..|after| - 1], after[|after| - 1];
      FlattenSnoc(after);
      assert id + Flatten(after) == (id + Flatten(rest)) + e;
      TrailingBlankIs(blank, id + Flatten(rest), e);
      TrimRightStrips(blank, id, rest);
    }
  }

  lemma TrimFinds(blank: string -> bool, raw: string)
    ensures Padded(blank, raw, Trim(blank, raw))
  {
    var before := TrimLeftSplits(blank, raw);
    var after := TrimRightSplits(blank, TrimLeft(blank, raw));
    Associate(Flatten(before), Trim(blank, raw), Flatten(after));
  }

  lemma TrimRecovers(blank: string -> bool, raw: string, id: string)
    requires Unambiguous(blank) && WellFormed(id) && Padded(blank, raw, id)
    ensures Trim(blank, raw) == id
  {
    var before, after :|
      AllBlank(blank, before) && AllBlank(blank, after) && raw == Flatten(before) + id + Flatten(after);
    Associate(Flatten(before), id, Flatten(after));
    TrimLeftStrips(blank, before, id + Flatten(after));
    TrimRightStrips(blank, id, after);
  }

  /** Trimming yields a well-formed identifier exactly when the input is that identifier with padding. */
  lemma TrimExactly(blank: string -> bool, raw: string, id: string)
    requires Unambiguous(blank) && WellFormed(id)
    ensures Trim(blank, raw) == id <==> Padded(blank, raw, id)
  {
    TrimFinds(blank, raw);
    if Padded(blank, raw, id) { TrimRecovers(blank, raw, id); }
  }

  lemma GoKeepsWellFormed(raw: string)
    ensures var value := Trim(GoBlank, raw); ValidRequestId(raw) == if WellFormed(value) then value else ""
  {
  }

  lemma PythonKeepsWellFormed(raw: string)
    ensures var value := Trim(PythonBlank, raw);
      NormaliseRequestId(Some(raw)) == if WellFormed(value) then Some(value) else None
  {
  }

  /** Go accepts exactly the well-formed identifiers padded with UTF-8 whitespace. */
  lemma GoAcceptsExactly(raw: string, id: string)
    requires id != ""
    ensures ValidRequestId(raw) == id <==> WellFormed(id) && Padded(GoBlank, raw, id)
  {
    GoKeepsWellFormed(raw);
    if WellFormed(id) {
      GoUnambiguous();
      TrimExactly(GoBlank, raw, id);
    }
  }

  /** Python accepts exactly the well-formed identifiers padded with Latin-1 whitespace. */
  lemma PythonAcceptsExactly(raw: string, id: string)
    ensures NormaliseRequestId(Some(raw)) == Some(id) <==> WellFormed(id) && Padded(PythonBlank, raw, id)
  {
    PythonKeepsWellFormed(raw);
    if WellFormed(id) {
      PythonUnambiguous();
      TrimExactly(PythonBlank, raw, id);
    }
  }

  // ---------------------------------------------------------------------------------------------
  // Agreement of the two normalisers
  // ---------------------------------------------------------------------------------------------

  function VisiblePart(s: string): string {
    if s == "" then "" else if Visible(s[0]) then [s[0]] + VisiblePart(s[1..]) else VisiblePart(s[1..])
  }

  lemma {:induction false} VisiblePartConcat(a: string, b: string)
    ensures VisiblePart(a + b) == VisiblePart(a) + VisiblePart(b)
  {
    if a == "" {
      assert a + b == b;
    } else {
      VisiblePartConcat(a[1..], b);
      assert (a + b)[0] == a[0] && (a + b)[1..] == a[1..] + b;
      Associate([a[0]], VisiblePart(a[1..]), VisiblePart(b));
    }
  }

  lemma {:induction false} VisiblePartOfId(id: string)
    requires AllVisible(id)
    ensures VisiblePart(id) == id
  {
    if id != "" { VisiblePartOfId(id[1..]); }
  }

  lemma {:induction false} VisiblePartOfInvisible(s: string)
    requires forall i | 0 <= i < |s| :: !Visible(s[i])
    ensures VisiblePart(s) == ""
  {
    if s != "" { VisiblePartOfInvisible(s[1..]); }
  }

  lemma {:induction false} VisiblePartOfBlanks(blank: string -> bool, parts: seq<string>)
    requires Hidden(blank) && AllBlank(blank, parts)
    ensures VisiblePart(Flatten(parts)) == ""
  {
    if parts != [] {
      assert blank(parts[0]);
      VisiblePartConcat(parts[0], Flatten(parts[1..]));
      VisiblePartOfInvisible(parts[0]);
      VisiblePartOfBlanks(blank, parts[1..]);
    }
  }

  lemma VisiblePartBetween(a: string, b: string, c: string)
    requires VisiblePart(a) == "" && VisiblePart(c) == ""
    ensures VisiblePart(a + b + c) == VisiblePart(b)
  {
    VisiblePartConcat(a + b, c);
    VisiblePartConcat(a, b);
  }

  lemma PaddedIsVisiblePart(blank: string -> bool, raw: string, id: string)
    requires Hidden(blank) && WellFormed(id) && Padded(blank, raw, id)
    ensures id == VisiblePart(raw)
  {
    var before, after :|
      AllBlank(blank, before) && AllBlank(blank, after) && raw == Flatten(before) + id + Flatten(after);
    VisiblePartOfBlanks(blank, before);
    VisiblePartOfBlanks(blank, after);
    VisiblePartOfId(id);
    VisiblePartBetween(Flatten(before), id, Flatten(after));
  }

  /** On one raw value the two services may disagree on acceptance, never on the identifier. */
  lemma NormalisersNeverConflict(raw: string)
    ensures var go, python := ValidRequestId(raw), NormaliseRequestId(Some(raw));
      go != "" && python.Some? ==> go == python.value
  {
    var go, python := ValidRequestId(raw), NormaliseRequestId(Some(raw));
    if go != "" && python.Some? {
      GoAcceptsExactly(raw, go);
      PythonAcceptsExactly(raw, python.value);
      GoUnambiguous();
      PythonUnambiguous();
      PaddedIsVisiblePart(GoBlank, raw, go);
      PaddedIsVisiblePart(PythonBlank, raw, python.value);
    }
  }

  /** Characters both languages treat alike: those of an identifier, and the blanks of ASCII that both trim. */
  predicate Plain(s: string) {
    forall i | 0 <= i < |s| :: Visible(s[i]) || 0x09 <= s[i] as int <= 0x0d || s[i] == ' '
  }

  /** Characters Python can accept in or around an identifier. */
  predicate PythonText(s: string) {
    forall i | 0 <= i < |s| :: Visible(s[i]) || PythonSpace(s[i] as int)
  }

  lemma BlanksCompared(e: string)
    ensures GoBlank(e) && PythonText(e) ==> Plain(e)
    ensures Plain(e) ==> (GoBlank(e) <==> PythonBlank(e))
    ensures PythonBlank(e) ==> PythonText(e)
  {
    if GoBlank(e) { assert Utf8Shape(e); }
  }

  lemma ConcatPlain(a: string, b: string)
    ensures Plain(a + b) <==> Plain(a) && Plain(b)
    ensures PythonText(a + b) <==> PythonText(a) && PythonText(b)
  {
    assert forall i | 0 <= i < |a| :: (a + b)[i] == a[i];
    assert forall i | 0 <= i < |b| :: (a + b)[|a| + i] == b[i];
  }

  lemma {:induction false} PartsPlain(parts: seq<string>)
    ensures Plain(Flatten(parts)) <==> forall i | 0 <= i < |parts| :: Plain(parts[i])
    ensures PythonText(Flatten(parts)) <==> forall i | 0 <= i < |parts| :: PythonText(parts[i])
  {
    if parts != [] {
      PartsPlain(parts[1..]);
      ConcatPlain(parts[0], Flatten(parts[1..]));
      assert forall i | 1 <= i < |parts| :: parts[i] == parts[1..][i - 1];
      assert forall i | 0 <= i < |parts[1..]| :: parts[1..][i] == parts[i + 1];
    }
  }

  lemma PlainOrNot(before: seq<string>, id: string, after: seq<string>)
    requires AllVisible(id)
    ensures var raw := Flatten(before) + id + Flatten(after);
      && (Plain(raw) <==> Plain(Flatten(before)) && Plain(Flatten(after)))
      && (PythonText(raw) <==> PythonText(Flatten(before)) && PythonText(Flatten(after)))
  {
    ConcatPlain(Flatten(before) + id, Flatten(after));
    ConcatPlain(Flatten(before), id);
  }

  lemma RepadPlain(from: string -> bool, to: string -> bool, raw: string, id: string)
    requires WellFormed(id) && Padded(from, raw, id) && Plain(raw)
    requires forall e | from(e) && Plain(e) :: to(e)
    ensures Padded(to, raw, id)
  {
    var before, after :|
      AllBlank(from, before) && AllBlank(from, after) && raw == Flatten(before) + id + Flatten(after);
    PlainOrNot(before, id, after);
    PartsPlain(before);
    PartsPlain(after);
    assert AllBlank(to, before) && AllBlank(to, after);
  }

  lemma PythonReadsText(raw: string, id: string)
    requires WellFormed(id) && Padded(PythonBlank, raw, id)
    ensures PythonText(raw)
  {
    var before, after :| AllBlank(PythonBlank, before) && AllBlank(PythonBlank, after)
      && raw == Flatten(before) + id + Flatten(after);
    PlainOrNot(before, id, after);
    forall e ensures PythonBlank(e) ==> PythonText(e) { BlanksCompared(e); }
    PartsPlain(before);
    PartsPlain(after);
  }

  lemma GoReadsPlainText(raw: string, id: string)
    requires WellFormed(id) && Padded(GoBlank, raw, id) && PythonText(raw)
    ensures Plain(raw)
  {
    var before, after :| AllBlank(GoBlank, before) && AllBlank(GoBlank, after)
      && raw == Flatten(before) + id + Flatten(after);
    PlainOrNot(before, id, after);
    forall e ensures GoBlank(e) && PythonText(e) ==> Plain(e) { BlanksCompared(e); }
    PartsPlain(before);
    PartsPlain(after);
  }

  /**
   When the services agree on acceptance: of the values at least one of them accepts, both accept exactly those
   made of visible characters and ASCII blanks alone.
   */
  lemma NormalisersAgreeIff(raw: string)
    ensures var go, python := ValidRequestId(raw), NormaliseRequestId(Some(raw));
      go != "" || python.Some? ==> ((go != "" && python.Some?) <==> Plain(raw))
  {
    var go, python := ValidRequestId(raw), NormaliseRequestId(Some(raw));
    if go != "" { GoAcceptsExactly(raw, go); }
    if python.Some? { PythonAcceptsExactly(raw, python.value); }
    if go != "" && python.Some? {
      PythonReadsText(raw, python.value);
      GoReadsPlainText(raw, go);
    }
    if Plain(raw) {
      forall e ensures Plain(e) ==> (GoBlank(e) <==> PythonBlank(e)) { BlanksCompared(e); }
      if go != "" {
        RepadPlain(GoBlank, PythonBlank, raw, go);
        PythonAcceptsExactly(raw, go);
      }
      if python.Some? {
        RepadPlain(PythonBlank, GoBlank, raw, python.value);
        GoAcceptsExactly(raw, python.value);
      }
    }
  }

  lemma NotPlain(s: string)
    requires s != "" && s[0] as int > 0x7e
    ensures !Plain(s)
  {
  }

  lemma PaddedOnce(blank: string -> bool, e: string, id: string)
    requires blank(e)
    ensures Padded(blank, e + id, id)
  {
    assert Flatten([e]) == e + Flatten([]);
    assert e + id == Flatten([e]) + id + Flatten([]);
    assert AllBlank(blank, [e]) && AllBlank(blank, []);
  }

  /** They do disagree: each trims a no-break space that makes the other reject the value. */
  lemma NormalisersDisagreeOnAcceptance()
    ensures ValidRequestId("\U{c2}\U{a0}" + "a") == "a" && NormaliseRequestId(Some("\U{c2}\U{a0}" + "a")) == None
    ensures ValidRequestId("\U{a0}" + "a") == "" && NormaliseRequestId(Some("\U{a0}" + "a")) == Some("a")
  {
    PaddedOnce(GoBlank, "\U{c2}\U{a0}", "a");
    GoAcceptsExactly("\U{c2}\U{a0}" + "a", "a");
    PaddedOnce(PythonBlank, "\U{a0}", "a");
    PythonAcceptsExactly("\U{a0}" + "a", "a");
    NotPlain("\U{c2}\U{a0}" + "a");
    NotPlain("\U{a0}" + "a");
    NormalisersAgreeIff("\U{c2}\U{a0}" + "a");
    NormalisersAgreeIff("\U{a0}" + "a");
  }

  /** A well-formed identifier passes through both normalisers unchanged. */
  lemma WellFormedIsFixedPoint(id: string)
    requires WellFormed(id)
    ensures ValidRequestId(id) == id && NormaliseRequestId(Some(id)) == Some(id)
  {
    assert id == Flatten([]) + id + Flatten([]);
    assert AllBlank(GoBlank, []) && AllBlank(PythonBlank, []);
    GoAcceptsExactly(id, id);
    PythonAcceptsExactly(id, id);
  }

  // ---------------------------------------------------------------------------------------------
  // Generated identifiers
  // ---------------------------------------------------------------------------------------------

  /** The identifier built when the random source fails. */
  function Fallback(now: int, count: nat): string {
    "fallback-" + SignedDecimal(now) + "-" + Decimal(count)
  }

  /** `hex.EncodeToString`, also the shape of Python's `uuid4().hex`. */
  function HexEncode(bytes: seq<int>): string
    requires forall i | 0 <= i < |bytes| :: 0 <= bytes[i] < 256
  {
    if bytes == [] then ""
    else [Digit(bytes[0] / 16), Digit(bytes[0] % 16)] + HexEncode(bytes[1..])
  }

  lemma {:induction false} HexShape(bytes: seq<int>)
    requires forall i | 0 <= i < |bytes| :: 0 <= bytes[i] < 256
    ensures |HexEncode(bytes)| == 2 * |bytes|
    ensures AllVisible(HexEncode(bytes)) && 'l' !in HexEncode(bytes)
    ensures forall i | 0 <= i < |HexEncode(bytes)| ::
      '0' <= HexEncode(bytes)[i] <= '9' || 'a' <= HexEncode(bytes)[i] <= 'f'
  {
    if bytes != [] { HexShape(bytes[1..]); }
  }

  /** Lower-case hexadecimal digits, two a byte, from which the bytes can be read back. */
  predicate HexOf(id: string, bytes: seq<int>) {
    && |id| == 2 * |bytes|
    && (forall i | 0 <= i < |id| :: '0' <= id[i] <= '9' || 'a' <= id[i] <= 'f')
    && forall i | 0 <= i < |bytes| :: 16 * DigitValue(id[2 * i]) + DigitValue(id[2 * i + 1]) == bytes[i]
  }

  lemma {:induction false} HexAt(bytes: seq<int>, i: nat)
    requires i < |bytes| && forall k | 0 <= k < |bytes| :: 0 <= bytes[k] < 256
    ensures var id := HexEncode(bytes);
      |id| == 2 * |bytes| && id[2 * i] == Digit(bytes[i] / 16) && id[2 * i + 1] == Digit(bytes[i] % 16)
  {
    HexShape(bytes);
    if i > 0 { HexAt(bytes[1..], i - 1); }
  }

  lemma HexDenotes(bytes: seq<int>)
    requires forall i | 0 <= i < |bytes| :: 0 <= bytes[i] < 256
    ensures HexOf(HexEncode(bytes), bytes)
  {
    HexShape(bytes);
    var id := HexEncode(bytes);
    forall i | 0 <= i < |bytes| ensures 16 * DigitValue(id[2 * i]) + DigitValue(id[2 * i + 1]) == bytes[i] {
      HexAt(bytes, i);
    }
  }

  lemma VisibleConcat(a: string, b: string)
    requires AllVisible(a) && AllVisible(b)
    ensures AllVisible(a + b)
  {
  }

  lemma FallbackWellFormed(now: int, count: nat)
    requires -INT64_MAX - 1 <= now <= INT64_MAX && count < UINT64
    ensures WellFormed(Fallback(now, count)) && |Fallback(now, count)| <= 50
  {
    PowersOfTen();
    DecimalShape(if now < 0 then -now else now, 19);
    DecimalShape(count, 20);
    VisibleConcat("-", Decimal(if now < 0 then -now else now));
    VisibleConcat("fallback-", SignedDecimal(now));
    VisibleConcat("fallback-" + SignedDecimal(now), "-");
    VisibleConcat("fallback-" + SignedDecimal(now) + "-", Decimal(count));
  }

  lemma SplitAtLastDash(a: string, b: string, c: string, d: string)
    requires '-' !in b && '-' !in d && a + "-" + b == c + "-" + d
    ensures a == c && b == d
  {
    var whole, whole' := a + "-" + b, c + "-" + d;
    var i, j := |whole| - |b| - 1, |whole| - |d| - 1;
    assert whole[i] == '-' && whole[i + 1..] == b;
    assert whole'[j] == '-' && whole'[j + 1..] == d;
    assert forall k | i < k < |whole| :: whole[k] == b[k - i - 1];
    assert forall k | j < k < |whole| :: whole[k] == d[k - j - 1];
    assert i == j;
    assert whole[..|a|] == a && whole'[..|c|] == c;
    assert whole[|a| + 1..] == b && whole'[|c| + 1..] == d;
  }

  /** The text after the last dash determines the counter, the text before it the clock. */
  lemma FallbackInjective(s: int, m: nat, t: int, n: nat)
    ensures Fallback(s, m) == Fallback(t, n) <==> s == t && m == n
  {
    if Fallback(s, m) == Fallback(t, n) {
      var head, head' := "fallback-" + SignedDecimal(s), "fallback-" + SignedDecimal(t);
      DecimalDenotes(m);
      DecimalDenotes(n);
      SplitAtLastDash(head, Decimal(m), head', Decimal(n));
      assert head[9..] == SignedDecimal(s) && head'[9..] == SignedDecimal(t);
      SignedDecimalInjective(s, t);
    }
  }

  lemma ThirdOfConcat(a: string, b: string, c: string, d: string)
    requires |a| > 2
    ensures (a + b + c + d)[2] == a[2]
  {
  }

  /** No identifier of the fallback form is ever a hexadecimal one. */
  lemma FallbackIsNotHex(now: int, count: nat, bytes: seq<int>)
    requires forall i | 0 <= i < |bytes| :: 0 <= bytes[i] < 256
    ensures Fallback(now, count) != HexEncode(bytes)
  {
    HexShape(bytes);
    ThirdOfConcat("fallback-", SignedDecimal(now), "-", Decimal(count));
  }

  /** The 16 bytes of one successful read of the random source. */
  predicate RandomBytes(bytes: seq<int>) {
    |bytes| == 16 && forall i | 0 <= i < |bytes| :: 0 <= bytes[i] < 256
  }

  /** `requestIDMiddleware`'s choice: keep an acceptable identifier, otherwise generate one. */
  function ChooseRequestId(raw: string, random: Option<seq<int>>, now: int, count: nat): string
    requires random.Some? ==> RandomBytes(random.value)
  {
    var value := ValidRequestId(raw);
    if value != "" then value
    else match random
      case Some(bytes) => HexEncode(bytes)
      case None => Fallback(now, count)
  }

  /** The middleware of the ML service: keep an acceptable identifier, otherwise take a random one. */
  function PythonRequestId(header: Option<string>, uuid: seq<int>): string
    requires RandomBytes(uuid)
  {
    var id := NormaliseRequestId(header);
    if id.Some? then id.value else HexEncode(uuid)
  }

  /** The clock and the counter stand in the identifier, each as a decimal numeral. */
  ghost predicate FallbackOf(id: string, now: int, count: nat) {
    exists clock: string, counter: string ::
      id == "fallback-" + clock + "-" + counter && SignedValue(clock) == now && NumeralValue(counter) == count
  }

  /** The header value is acceptable: some well-formed identifier between blanks. */
  ghost predicate Acceptable(blank: string -> bool, raw: string) {
    exists x :: WellFormed(x) && Padded(blank, raw, x)
  }

  /**
   The identifier the search API is to use: the one the header carries, if it is acceptable; otherwise the
   random bytes in hexadecimal, or clock and counter if the random source failed. Go reads a missing header as
   the empty text, which is not acceptable.
   */
  ghost predicate GoUses(raw: string, random: Option<seq<int>>, now: int, count: nat, id: string) {
    && WellFormed(id)
    && (forall x | WellFormed(x) && Padded(GoBlank, raw, x) :: id == x)
    && (!Acceptable(GoBlank, raw) ==>
          if random.Some? then HexOf(id, random.value) else FallbackOf(id, now, count))
  }

  /** The identifier the ML service is to use: the header's if acceptable, otherwise a random one. */
  ghost predicate PythonUses(header: Option<string>, uuid: seq<int>, id: string) {
    && WellFormed(id)
    && (header.Some? ==> forall x | WellFormed(x) && Padded(PythonBlank, header.value, x) :: id == x)
    && (header.None? || !Acceptable(PythonBlank, header.value) ==> HexOf(id, uuid))
  }

  /** The ML service keeps every acceptable identifier and replaces everything else. */
  lemma PythonIdMeans(header: Option<string>, uuid: seq<int>)
    requires RandomBytes(uuid)
    ensures PythonUses(header, uuid, PythonRequestId(header, uuid))
  {
    var id := PythonRequestId(header, uuid);
    HexShape(uuid);
    HexDenotes(uuid);
    if header.Some? {
      PythonKeepsWellFormed(header.value);
      if NormaliseRequestId(header).Some? { PythonAcceptsExactly(header.value, id); }
      forall x | WellFormed(x) && Padded(PythonBlank, header.value, x) ensures id == x {
        PythonAcceptsExactly(header.value, x);
      }
    }
  }

  lemma ChosenIdWellFormed(raw: string, random: Option<seq<int>>, now: int, count: nat)
    requires random.Some? ==> RandomBytes(random.value)
    requires -INT64_MAX - 1 <= now <= INT64_MAX && count < UINT64
    ensures WellFormed(ChooseRequestId(raw, random, now, count))
  {
    var id := ChooseRequestId(raw, random, now, count);
    if ValidRequestId(raw) != "" {
      GoAcceptsExactly(raw, id);
    } else if random.Some? {
      HexShape(random.value);
    } else {
      FallbackWellFormed(now, count);
    }
  }

  /** The search API keeps every acceptable identifier and replaces everything else. */
  lemma GoIdMeans(raw: string, random: Option<seq<int>>, now: int, count: nat)
    requires random.Some? ==> RandomBytes(random.value)
    requires -INT64_MAX - 1 <= now <= INT64_MAX && count < UINT64
    ensures GoUses(raw, random, now, count, ChooseRequestId(raw, random, now, count))
  {
    var id := ChooseRequestId(raw, random, now, count);
    ChosenIdWellFormed(raw, random, now, count);
    if ValidRequestId(raw) != "" {
      GoAcceptsExactly(raw, id);
    } else if random.Some? {
      HexDenotes(random.value);
    } else {
      SignedDecimalDenotes(now);
      DecimalDenotes(count);
    }
    forall x | WellFormed(x) && Padded(GoBlank, raw, x) ensures id == x { GoAcceptsExactly(raw, x); }
  }

  /**
   Whatever the client sent and however the identifier came about, Go's identifier is well formed, Go would
   keep it on a second reading, and sent on as a header it is the one the ML service uses.
   */
  lemma ServicesAgree(raw: string, random: Option<seq<int>>, now: int, count: nat, uuid: seq<int>)
    requires (random.Some? ==> RandomBytes(random.value)) && RandomBytes(uuid)
    requires -INT64_MAX - 1 <= now <= INT64_MAX && count < UINT64
    ensures var id := ChooseRequestId(raw, random, now, count);
      WellFormed(id) && ValidRequestId(id) == id && PythonRequestId(Some(id), uuid) == id
  {
    ChosenIdWellFormed(raw, random, now, count);
    WellFormedIsFixedPoint(ChooseRequestId(raw, random, now, count));
  }

  // ---------------------------------------------------------------------------------------------
  // Uniqueness of fallback identifiers under concurrency
  // ---------------------------------------------------------------------------------------------

  /** A call first reads the clock and then, atomically, advances the shared counter. */
  datatype Event = ReadClock(call: nat, now: int) | Add(call: nat)

  /**
   The 64-bit counter, and by call: the clock readings taken and the counter values obtained.
   `adds` and `ordinals` are history: how often and as how manyth the counter was advanced.
   */
  datatype Issuer = Issuer(
    counter: nat, adds: nat, clocks: map<nat, int>, counts: map<nat, nat>, ordinals: map<nat, nat>)
  {
    /** The identifier a completed call returned. */
    function Id(call: nat): string
      requires call in clocks && call in counts
    {
      Fallback(clocks[call], counts[call])
    }
  }

  predicate Enabled(s: Issuer, e: Event) {
    match e
    case ReadClock(call, _) => call !in s.clocks
    case Add(call) => call in s.clocks && call !in s.counts
  }

  function Apply(s: Issuer, e: Event): Issuer
    requires Enabled(s, e)
  {
    match e
    case ReadClock(call, now) => s.(clocks := s.clocks[call := now])
    case Add(call) =>
      var counter := (s.counter + 1) % UINT64;
      s.(counter := counter, adds := s.adds + 1,
         counts := s.counts[call := counter],
         ordinals := s.ordinals[call := s.adds + 1])
  }

  const UNUSED := Issuer(0, 0, map[], map[], map[])

  ghost predicate Leads(events: seq<Event>, before: Issuer, s: Issuer)
    requires events != []
    decreases |events|, 0
  {
    var last := |events| - 1;
    Reaches(events[..last], before) && Enabled(before, events[last]) && s == Apply(before, events[last])
  }

  /** `events` is one interleaving of the concurrent calls, ending in `s`. */
  ghost predicate Reaches(events: seq<Event>, s: Issuer)
    decreases |events|, 1
  {
    if events == [] then s == UNUSED else exists before :: Leads(events, before, s)
  }

  ghost predicate IssuerInvariant(s: Issuer) {
    && s.counter == s.adds % UINT64
    && s.counts.Keys == s.ordinals.Keys && s.counts.Keys <= s.clocks.Keys
    && (forall c | c in s.counts :: 1 <= s.ordinals[c] <= s.adds && s.counts[c] == s.ordinals[c] % UINT64)
    && (forall c, d | c in s.counts && d in s.counts && c != d :: s.ordinals[c] != s.ordinals[d])
  }

  lemma IssuerStep(s: Issuer, e: Event)
    requires IssuerInvariant(s) && Enabled(s, e)
    ensures IssuerInvariant(Apply(s, e))
  {
    if e.Add? {
      assert (s.adds % UINT64 + 1) % UINT64 == (s.adds + 1) % UINT64;
    }
  }

  lemma {:induction false} IssuerInvariantHolds(events: seq<Event>, s: Issuer)
    requires Reaches(events, s)
    ensures IssuerInvariant(s)
    decreases |events|
  {
    if events != [] {
      var before :| Leads(events, before, s);
      IssuerInvariantHolds(events[..|events| - 1], before);
      IssuerStep(before, events[|events| - 1]);
    }
  }

  /** The identifier of a completed call is the one `requestIDMiddleware` chooses when the random source fails. */
  lemma IssuedIdIsChosen(s: Issuer, call: nat, raw: string)
    requires call in s.clocks && call in s.counts && ValidRequestId(raw) == ""
    ensures s.Id(call) == ChooseRequestId(raw, None, s.clocks[call], s.counts[call])
    ensures FallbackOf(s.Id(call), s.clocks[call], s.counts[call])
  {
    SignedDecimalDenotes(s.clocks[call]);
    DecimalDenotes(s.counts[call]);
  }

  /**
   Two issued identifiers coincide exactly when the clock read the same and the counter wrapped around between them.
   */
  lemma FallbackIdsCollideIff(events: seq<Event>, s: Issuer, c: nat, d: nat)
    requires Reaches(events, s)
    requires c in s.counts && d in s.counts && c in s.clocks && d in s.clocks
    ensures c in s.ordinals && d in s.ordinals
    ensures s.Id(c) == s.Id(d) <==> s.clocks[c] == s.clocks[d] && s.ordinals[c] % UINT64 == s.ordinals[d] % UINT64
  {
    IssuerInvariantHolds(events, s);
    FallbackInjective(s.clocks[c], s.counts[c], s.clocks[d], s.counts[d]);
  }

  lemma WrapDistinct(m: nat, n: nat)
    requires 1 <= m <= UINT64 && 1 <= n <= UINT64 && m != n
    ensures m % UINT64 != n % UINT64
  {
  }

  /**
   In every interleaving with at most 2^64 issued identifiers no two calls get the same one,
   whatever the clock did.
   */
  lemma FallbackIdsDistinct(events: seq<Event>, s: Issuer, c: nat, d: nat)
    requires Reaches(events, s) && s.adds <= UINT64
    requires c in s.counts && d in s.counts && c != d && c in s.clocks && d in s.clocks
    ensures s.Id(c) != s.Id(d)
  {
    IssuerInvariantHolds(events, s);
    FallbackIdsCollideIff(events, s, c, d);
    WrapDistinct(s.ordinals[c], s.ordinals[d]);
  }
}
