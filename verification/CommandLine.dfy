/** `formatCommand`: one line for a command vector, and a splitter that recovers the vector from it. */
module CommandLine {
  import opened Wrappers
  import opened Numerals

  // ---------------------------------------------------------------------------------------------
  // Quoting
  // ---------------------------------------------------------------------------------------------

  /** `strconv.IsPrint`: fixed on ASCII, an arbitrary table beyond it. */
  predicate Printable(table: char -> bool, c: char) {
    if c as int < 0x80 then ' ' <= c <= '~' else table(c)
  }

  /** The escape `%q` writes for one character of a double-quoted string. */
  function Escape(table: char -> bool, c: char): string {
    if c == '\"' || c == '\\' then ['\\', c]
    else if Printable(table, c) then [c]
    else match c as int
      case 7 => "\\a"
      case 8 => "\\b"
      case 9 => "\\t"
      case 10 => "\\n"
      case 11 => "\\v"
      case 12 => "\\f"
      case 13 => "\\r"
      case code =>
        if code < 0x80 then "\\x" + FixedHex(code, 2)
        else if code < 0x1_0000 then "\\u" + FixedHex(code, 4)
        else "\\U" + FixedHex(code, 8)
  }

  function EscapeAll(table: char -> bool, s: string): string {
    if s == "" then "" else Escape(table, s[0]) + EscapeAll(table, s[1..])
  }

  function Quote(table: char -> bool, s: string): string {
    "\"" + EscapeAll(table, s) + "\""
  }

  /** `strings.ContainsAny(part, " \t\n\"")`. */
  predicate NeedsQuotes(part: string) {
    ' ' in part || '\t' in part || '\n' in part || '\"' in part
  }

  function Render(table: char -> bool, part: string): string {
    if NeedsQuotes(part) then Quote(table, part) else part
  }

  function JoinWithSpaces(parts: seq<string>): string {
    if parts == [] then "" else if |parts| == 1 then parts[0] else parts[0] + " " + JoinWithSpaces(parts[1..])
  }

  function RenderAll(table: char -> bool, parts: seq<string>): seq<string> {
    seq(|parts|, i requires 0 <= i < |parts| => Render(table, parts[i]))
  }

  /** The line for a command vector. */
  function Format(table: char -> bool, parts: seq<string>): string {
    JoinWithSpaces(RenderAll(table, parts))
  }

  /** `formatCommand`: a fresh slice of the parts is overwritten in place; the caller's arguments are not. */
  method FormatCommand(table: char -> bool, name: string, args: array<string>) returns (line: string)
    ensures line == Format(table, [name] + args[..])
  {
    var parts := new string[1 + args.Length](i reads args => if 1 <= i < 1 + args.Length then args[i - 1] else name);
    ghost var vector := [name] + args[..];
    assert parts[..] == vector;
    for index := 0 to parts.Length
      invariant forall i | 0 <= i < index :: parts[i] == Render(table, vector[i])
      invariant forall i | index <= i < parts.Length :: parts[i] == vector[i]
    {
      if NeedsQuotes(parts[index]) {
        parts[index] := Quote(table, parts[index]);
      }
    }
    assert parts[..] == RenderAll(table, vector);
    line := JoinWithSpaces(parts[..]);
  }

  // ---------------------------------------------------------------------------------------------
  // The splitter
  // ---------------------------------------------------------------------------------------------

  /** A code point as a character, if it is one. */
  function CharOf(code: int): Option<char> {
    if 0 <= code < 0xd800 || 0xe000 <= code < 0x11_0000 then Some(code as char) else None
  }

  function ReadHex(s: string, width: nat): Option<(char, string)> {
    if |s| < width then None
    else match CharOf(HexValue(s[..width]))
      case Some(c) => Some((c, s[width..]))
      case None => None
  }

  /** Reads one character of a quoted string. */
  function ReadEscape(s: string): Option<(char, string)> {
    if s == "" then None
    else if s[0] != '\\' then Some((s[0], s[1..]))
    else if |s| < 2 then None
    else match s[1]
      case 'a' => Some((7 as char, s[2..]))
      case 'b' => Some((8 as char, s[2..]))
      case 't' => Some((9 as char, s[2..]))
      case 'n' => Some((10 as char, s[2..]))
      case 'v' => Some((11 as char, s[2..]))
      case 'f' => Some((12 as char, s[2..]))
      case 'r' => Some((13 as char, s[2..]))
      case 'x' => ReadHex(s[2..], 2)
      case 'u' => ReadHex(s[2..], 4)
      case 'U' => ReadHex(s[2..], 8)
      case c => Some((c, s[2..]))
  }

  /** Reads up to the closing quote. */
  function ReadQuoted(s: string): Option<(string, string)>
    decreases |s|
  {
    if s == "" then None
    else if s[0] == '\"' then Some(("", s[1..]))
    else match ReadEscape(s)
      case None => None
      case Some((c, rest)) =>
        if |rest| >= |s| then None
        else match ReadQuoted(rest)
          case None => None
          case Some((word, after)) => Some(([c] + word, after))
  }

  /** Reads up to the next space. */
  function ReadPlain(s: string): (string, string) {
    if s == "" || s[0] == ' ' then ("", s)
    else var (word, rest) := ReadPlain(s[1..]); ([s[0]] + word, rest)
  }

  function ReadPart(s: string): Option<(string, string)> {
    if s != "" && s[0] == '\"' then ReadQuoted(s[1..]) else Some(ReadPlain(s))
  }

  /** The command vector a line denotes. */
  function Split(s: string): Option<seq<string>>
    decreases |s|
  {
    match ReadPart(s)
    case None => None
    case Some((part, rest)) =>
      if rest == "" then Some([part])
      else if rest[0] != ' ' || |rest| > |s| then None
      else match Split(rest[1..])
        case None => None
        case Some(parts) => Some([part] + parts)
  }

  // ---------------------------------------------------------------------------------------------
  // Round trip
  // ---------------------------------------------------------------------------------------------

  lemma HexEscapeRoundTrip(code: nat, width: nat, rest: string)
    requires code < Pow16(width) && CharOf(code).Some?
    ensures ReadHex(FixedHex(code, width) + rest, width) == Some((code as char, rest))
  {
    FixedHexDenotes(code, width);
    var s := FixedHex(code, width) + rest;
    assert s[..width] == FixedHex(code, width) && s[width..] == rest;
  }

  lemma PowersOf16()
    ensures Pow16(2) == 0x100 && Pow16(4) == 0x1_0000 && Pow16(8) == 0x1_0000_0000
  {
    assert Pow16(4) == 16 * Pow16(3) && Pow16(3) == 16 * Pow16(2);
    assert Pow16(6) == 16 * Pow16(5) && Pow16(5) == 16 * Pow16(4);
  }

  lemma WidthFits(code: nat, width: nat)
    requires code < 0x11_0000 && width == if code < 0x80 then 2 else if code < 0x1_0000 then 4 else 8
    ensures code < Pow16(width)
  {
    PowersOf16();
  }

  lemma HexRead(table: char -> bool, c: char, rest: string)
    requires c != '\"' && c != '\\' && !Printable(table, c) && !(7 <= c as int <= 13)
    ensures ReadEscape(Escape(table, c) + rest) == Some((c, rest))
  {
    var e, code := Escape(table, c), c as int;
    var width := if code < 0x80 then 2 else if code < 0x1_0000 then 4 else 8;
    WidthFits(code, width);
    HexEscapeRoundTrip(code, width, rest);
    assert (e + rest)[2..] == FixedHex(code, width) + rest;
  }

  lemma EscapeRoundTrip(table: char -> bool, c: char, rest: string)
    ensures ReadEscape(Escape(table, c) + rest) == Some((c, rest))
    ensures Escape(table, c) != "" && Escape(table, c)[0] != '\"'
  {
    var e, code := Escape(table, c), c as int;
    if c == '\"' || c == '\\' || Printable(table, c) || 7 <= code <= 13 {
      assert (e + rest)[|e|..] == rest;
    } else {
      HexRead(table, c, rest);
    }
  }

  lemma {:induction false} QuotedRoundTrip(table: char -> bool, word: string, rest: string)
    ensures ReadQuoted(EscapeAll(table, word) + "\"" + rest) == Some((word, rest))
  {
    var s := EscapeAll(table, word) + "\"" + rest;
    if word == "" {
      assert s == "\"" + rest;
    } else {
      var tail := EscapeAll(table, word[1..]) + "\"" + rest;
      assert s == Escape(table, word[0]) + tail;
      EscapeRoundTrip(table, word[0], tail);
      QuotedRoundTrip(table, word[1..], rest);
      assert [word[0]] + word[1..] == word;
    }
  }

  lemma {:induction false} PlainRoundTrip(word: string, rest: string)
    requires ' ' !in word && (rest == "" || rest[0] == ' ')
    ensures ReadPlain(word + rest) == (word, rest)
  {
    if word == "" {
      assert word + rest == rest;
    } else {
      assert word[0] in word && forall c | c in word[1..] :: c in word;
      PlainRoundTrip(word[1..], rest);
      assert (word + rest)[0] == word[0] && (word + rest)[1..] == word[1..] + rest;
      assert [word[0]] + word[1..] == word;
    }
  }

  lemma QuotedPartRoundTrip(table: char -> bool, part: string, rest: string)
    ensures ReadPart(Quote(table, part) + rest) == Some((part, rest))
  {
    QuotedRoundTrip(table, part, rest);
    assert (Quote(table, part) + rest)[1..] == EscapeAll(table, part) + "\"" + rest;
  }

  lemma PlainPartRoundTrip(part: string, rest: string)
    requires !NeedsQuotes(part) && (rest == "" || rest[0] == ' ')
    ensures ReadPart(part + rest) == Some((part, rest))
  {
    PlainRoundTrip(part, rest);
    assert part + rest != "" ==> (part + rest)[0] != '\"' by {
      if part != "" { assert part[0] in part; }
    }
  }

  lemma PartRoundTrip(table: char -> bool, part: string, rest: string)
    requires rest == "" || rest[0] == ' '
    ensures ReadPart(Render(table, part) + rest) == Some((part, rest))
  {
    if NeedsQuotes(part) {
      QuotedPartRoundTrip(table, part, rest);
    } else {
      PlainPartRoundTrip(part, rest);
    }
  }

  /** The splitter recovers every command vector, with empty parts and any spaces, quotes and backslashes. */
  lemma {:induction false} SplitRecovers(table: char -> bool, parts: seq<string>)
    requires parts != []
    ensures Split(Format(table, parts)) == Some(parts)
  {
    var line, first := Format(table, parts), Render(table, parts[0]);
    var rendered := RenderAll(table, parts);
    if |parts| == 1 {
      assert line == first + "";
      PartRoundTrip(table, parts[0], "");
      assert parts == [parts[0]];
    } else {
      var tail := Format(table, parts[1..]);
      assert rendered[1..] == RenderAll(table, parts[1..]);
      assert line == first + (" " + tail);
      PartRoundTrip(table, parts[0], " " + tail);
      assert (" " + tail)[1..] == tail;
      SplitRecovers(table, parts[1..]);
      assert parts == [parts[0]] + parts[1..];
    }
  }

  /** Two commands print the same line only if they are the same command. */
  lemma FormatInjective(table: char -> bool, name: string, args: seq<string>, name': string, args': seq<string>)
    requires Format(table, [name] + args) == Format(table, [name'] + args')
    ensures name == name' && args == args'
  {
    SplitRecovers(table, [name] + args);
    SplitRecovers(table, [name'] + args');
    assert ([name] + args)[1..] == args && ([name'] + args')[1..] == args';
    assert ([name] + args)[0] == name && ([name'] + args')[0] == name';
  }

  // ---------------------------------------------------------------------------------------------
  // What a line looks like
  // ---------------------------------------------------------------------------------------------

  /** A character that `%q` leaves as it is. */
  predicate Verbatim(table: char -> bool, c: char) {
    c != '\"' && c != '\\' && Printable(table, c)
  }

  lemma {:induction false} VerbatimText(table: char -> bool, s: string)
    requires forall c | c in s :: Verbatim(table, c)
    ensures EscapeAll(table, s) == s
  {
    if s != "" {
      assert s[0] in s;
      VerbatimText(table, s[1..]);
      assert [s[0]] + s[1..] == s;
    }
  }

  lemma {:induction false} FixedHexDigits(n: nat, width: nat)
    ensures forall c | c in FixedHex(n, width) :: '0' <= c <= '9' || 'a' <= c <= 'f'
  {
    if width > 0 { FixedHexDigits(n / 16, width - 1); }
  }

  lemma EscapePrintable(table: char -> bool, c: char)
    ensures forall d | d in Escape(table, c) :: Printable(table, d)
  {
    FixedHexDigits(c as int, 2);
    FixedHexDigits(c as int, 4);
    FixedHexDigits(c as int, 8);
  }

  lemma {:induction false} EscapeAllPrintable(table: char -> bool, s: string)
    ensures forall d | d in EscapeAll(table, s) :: Printable(table, d)
  {
    if s != "" {
      EscapePrintable(table, s[0]);
      EscapeAllPrintable(table, s[1..]);
    }
  }

  /**
   How one part is printed: as it is, unless it has a space, tab, line feed or double quote in it. Then it
   stands between double quotes, in printable characters only, and unchanged if it holds nothing but
   printable characters other than quotes and backslashes.
   */
  lemma PartPrinted(table: char -> bool, part: string)
    ensures var special := ' ' in part || '\t' in part || '\n' in part || '\"' in part;
      && (!special ==> Render(table, part) == part)
      && (special ==>
            && (exists text :: Render(table, part) == "\"" + text + "\"" && forall d | d in text :: Printable(table, d))
            && ((forall c | c in part :: Verbatim(table, c)) ==> Render(table, part) == "\"" + part + "\""))
  {
    if NeedsQuotes(part) {
      EscapeAllPrintable(table, part);
      if forall c | c in part :: Verbatim(table, c) { VerbatimText(table, part); }
      assert Render(table, part) == "\"" + EscapeAll(table, part) + "\"";
    }
  }

  lemma {:induction false} JoinedOnOneLine(parts: seq<string>)
    requires forall i | 0 <= i < |parts| :: '\n' !in parts[i]
    ensures '\n' !in JoinWithSpaces(parts)
  {
    if |parts| > 1 { JoinedOnOneLine(parts[1..]); }
  }

  /** A command is printed on one line, whatever line feeds its parts contain. */
  lemma FormatOnOneLine(table: char -> bool, parts: seq<string>)
    ensures '\n' !in Format(table, parts)
  {
    var rendered := RenderAll(table, parts);
    forall i | 0 <= i < |parts| ensures '\n' !in rendered[i] {
      PartPrinted(table, parts[i]);
    }
    JoinedOnOneLine(rendered);
  }
}
