/**
 Header blocks as WinHTTP takes and reports them: printing a header map, appending a framing
 line, and parsing a block with or without a status line, after section 5 of RFC 9112.

 Text is a sequence of code points.  A header map is any listing of its entries: only the
 order of values under one name means anything, and `SameMap` forgets the rest.
 */
module Headers {
  import opened Wrappers
  import opened Wire
  import Reply

  type Text = seq<nat>

  type Entry = (Text, Text)

  const COLON: nat := 58
  const BLANK: nat := 32
  const BREAK: Text := [13, 10]
  const HTTP: Text := [72, 84, 84, 80, 47]

  const MAX_NAME: nat := 65535

  // ---------------------------------------------------------------- characters

  predicate IsAlpha(c: nat) {
    65 <= c <= 90 || 97 <= c <= 122
  }

  /** The `tchar` of section 5.6.2 of RFC 9110. */
  predicate IsToken(c: nat) {
    IsAlpha(c) || 48 <= c <= 57 || c in {33, 35, 36, 37, 38, 39, 42, 43, 45, 46, 94, 95, 96, 124, 126}
  }

  predicate IsVisible(c: nat) {
    32 <= c < 127 || c == 9
  }

  /** What a parsed value may hold: no control character but the tab.  Beyond ASCII the bytes of the text are
      opaque to a header map, and all of them are accepted. */
  predicate IsOpaque(c: nat) {
    (32 <= c && c != 127) || c == 9
  }

  /** Unicode `White_Space`. */
  predicate IsBlank(c: nat) {
    9 <= c <= 13 || c in {32, 0x85, 0xA0, 0x1680, 0x2028, 0x2029, 0x202F, 0x205F, 0x3000} || 0x2000 <= c <= 0x200A
  }

  function Lower(c: nat): nat {
    if 65 <= c <= 90 then c + 32 else c
  }

  predicate AllVisible(t: Text) {
    forall i :: 0 <= i < |t| ==> IsVisible(t[i])
  }

  predicate AllOpaque(t: Text) {
    forall i :: 0 <= i < |t| ==> IsOpaque(t[i])
  }

  predicate AllTokens(t: Text) {
    forall i :: 0 <= i < |t| ==> IsToken(t[i])
  }

  predicate AllLower(t: Text) {
    forall i :: 0 <= i < |t| ==> Lower(t[i]) == t[i]
  }

  function TrimStart(t: Text): Text {
    if t != [] && IsBlank(t[0]) then TrimStart(t[1..]) else t
  }

  function TrimEnd(t: Text): Text {
    if t != [] && IsBlank(t[|t| - 1]) then TrimEnd(t[..|t| - 1]) else t
  }

  function Trim(t: Text): Text {
    TrimEnd(TrimStart(t))
  }

  predicate Trimmed(t: Text) {
    t == [] || (!IsBlank(t[0]) && !IsBlank(t[|t| - 1]))
  }

  /** A name as a header map holds it. */
  predicate IsName(t: Text) {
    t != [] && |t| <= MAX_NAME && AllTokens(t) && AllLower(t)
  }

  // ---------------------------------------------------------------- printing

  datatype EncodeError = FramingHeaderNotAllowed(name: Text) | NotVisibleAscii(name: Text)

  function TextOf(s: string): Text {
    seq(|s|, i requires 0 <= i < |s| => s[i] as nat)
  }

  predicate IsFraming(name: Text) {
    name == TextOf("content-length") || name == TextOf("transfer-encoding")
  }

  function Objection(e: Entry): Option<EncodeError> {
    if IsFraming(e.0) then Some(FramingHeaderNotAllowed(e.0))
    else if !AllVisible(e.1) then Some(NotVisibleAscii(e.0))
    else None
  }

  function Line(e: Entry): Text {
    e.0 + [COLON, BLANK] + e.1
  }

  function Block(listing: seq<Entry>): Text {
    if listing == [] then [] else Block(listing[..|listing| - 1]) + Line(listing[|listing| - 1]) + BREAK
  }

  /** One line per entry, or the first entry that cannot be sent. */
  method Encode(listing: seq<Entry>) returns (r: Result<Option<Text>, EncodeError>)
    ensures r.Ok? <==> forall i :: 0 <= i < |listing| ==> Objection(listing[i]).None?
    ensures r.Ok? ==> r.value == if listing == [] then None else Some(Block(listing))
    // A block carries no framing header, and nothing but visible text in its values.
    ensures r.Ok? ==> forall i :: 0 <= i < |listing| ==>
              && listing[i].0 != TextOf("content-length") && listing[i].0 != TextOf("transfer-encoding")
              && forall k :: 0 <= k < |listing[i].1| ==> 32 <= listing[i].1[k] <= 126 || listing[i].1[k] == 9
    ensures r.Err? ==> exists i :: 0 <= i < |listing| && Objection(listing[i]) == Some(r.error) &&
                                   forall k :: 0 <= k < i ==> Objection(listing[k]).None?
    // Nothing else is refused.
    ensures r.Err? ==>
              match r.error
              case FramingHeaderNotAllowed(n) => n == TextOf("content-length") || n == TextOf("transfer-encoding")
              case NotVisibleAscii(n) => exists i, k :: && 0 <= i < |listing| && listing[i].0 == n
                                                        && 0 <= k < |listing[i].1| && !(32 <= listing[i].1[k] <= 126)
                                                        && listing[i].1[k] != 9
  {
    var block: Text := [];
    for i := 0 to |listing|
      invariant block == Block(listing[..i]) && (i > 0 ==> block != [])
      invariant forall k :: 0 <= k < i ==> Objection(listing[k]).None?
    {
      var (name, value) := listing[i];
      if IsFraming(name) {
        return Err(FramingHeaderNotAllowed(name));
      }
      if !AllVisible(value) {
        return Err(NotVisibleAscii(name));
      }
      assert listing[..i + 1][..i] == listing[..i];
      block := block + name + [COLON, BLANK] + value + BREAK;
    }
    assert listing[..|listing|] == listing;
    return Ok(if block == [] then None else Some(block));
  }

  /** A framing line after an encoded block, which may be absent. */
  function Append(block: Option<Text>, line: Text): Text {
    (if block.Some? then block.value else []) + line + BREAK
  }

  // ---------------------------------------------------------------- parsing

  /** Where the first line ends, or the length if nothing ends it. */
  function Until(t: Text): (n: nat)
    ensures n <= |t|
  {
    if |t| < 2 then |t|
    else if t[0] == 13 && t[1] == 10 then 0
    else Until(t[1..]) + 1
  }

  /** Splitting at every line break; there is always one more line than breaks. */
  function Lines(t: Text): seq<Text>
    decreases |t|
  {
    if Until(t) + 2 <= |t| then [t[..Until(t)]] + Lines(t[Until(t) + 2..]) else [t]
  }

  /** The position of the first colon, or the length. */
  function Colon(t: Text): (n: nat)
    ensures n <= |t| && (n < |t| ==> t[n] == COLON)
  {
    if t == [] || t[0] == COLON then 0 else Colon(t[1..]) + 1
  }

  function ToLower(t: Text): Text {
    seq(|t|, i requires 0 <= i < |t| => Lower(t[i]))
  }

  /** A name folded to lower case, if it is a token of acceptable length. */
  function ParseName(t: Text): Option<Text> {
    if t != [] && |t| <= MAX_NAME && AllTokens(t) then Some(ToLower(t)) else None
  }

  function ParseLine(line: Text): Option<Entry> {
    if Colon(line) == |line| then None
    else
      var name, value := ParseName(Trim(line[..Colon(line)])), Trim(line[Colon(line) + 1..]);
      if name.Some? && AllOpaque(value) then Some((name.value, value)) else None
  }

  predicate Skipped(line: Text, trailers: bool) {
    line == [] || (trailers && HTTP <= line)
  }

  /** The entries of some lines, or the first line that is not a header field. */
  function ParseLines(lines: seq<Text>, trailers: bool): Result<seq<Entry>, Text> {
    if lines == [] then Ok([])
    else if Skipped(lines[0], trailers) then ParseLines(lines[1..], trailers)
    else
      match ParseLine(lines[0])
      case None => Err(lines[0])
      case Some(e) => Prepend([e], ParseLines(lines[1..], trailers))
  }

  function Prepend(listing: seq<Entry>, r: Result<seq<Entry>, Text>): Result<seq<Entry>, Text> {
    if r.Ok? then Ok(listing + r.value) else r
  }

  lemma PrependTwice(a: seq<Entry>, b: seq<Entry>, r: Result<seq<Entry>, Text>)
    ensures Prepend(a, Prepend(b, r)) == Prepend(a + b, r) && Prepend([], r) == r
  {
    if r.Ok? {
      assert a + (b + r.value) == a + b + r.value && [] + r.value == r.value;
    }
  }

  /** The loop both parsers share: append every field, in order. */
  method ParseFields(lines: seq<Text>, trailers: bool) returns (r: Result<seq<Entry>, Text>)
    ensures r == ParseLines(lines, trailers)
  {
    var headers: seq<Entry> := [];
    assert lines[0..] == lines;
    PrependTwice([], [], ParseLines(lines, trailers));
    for i := 0 to |lines|
      invariant Prepend(headers, ParseLines(lines[i..], trailers)) == ParseLines(lines, trailers)
    {
      var line := lines[i];
      assert lines[i..][1..] == lines[i + 1..];
      if !Skipped(line, trailers) {
        var e := ParseLine(line);
        if e.None? {
          return Err(line);
        }
        PrependTwice(headers, [e.value], ParseLines(lines[i + 1..], trailers));
        headers := headers + [e.value];
      }
    }
    assert headers + [] == headers;
    return Ok(headers);
  }

  method Parse(raw: Text) returns (r: Result<seq<Entry>, Text>)
    ensures r == ParseLines(Lines(raw)[1..], false)
  {
    r := ParseFields(Lines(raw)[1..], false);
  }

  method ParseTrailers(raw: Text) returns (r: Result<seq<Entry>, Text>)
    ensures r == ParseLines(Lines(raw), true)
  {
    r := ParseFields(Lines(raw), true);
  }

  // ---------------------------------------------------------------- what the tables and the splitting mean

  /** A `tchar` is any visible character but a delimiter: section 5.6.2 of RFC 9110. */
  lemma TokensAreNotDelimiters(c: nat)
    ensures IsToken(c) <==> 33 <= c <= 126
                            && c !in {34, 40, 41, 44, 47, 58, 59, 60, 61, 62, 63, 64, 91, 92, 93, 123, 125}
  {
  }

  /** The UTF-8 encoding of a code point below 2^16. */
  function Utf8(c: nat): Bytes
    requires c < 0x10000
  {
    if c < 0x80 then [c]
    else if c < 0x800 then [0xC0 + c / 64, 0x80 + c % 64]
    else [0xE0 + c / 4096, 0x80 + c / 64 % 64, 0x80 + c % 64]
  }

  /** The blanks trimmed from text and those trimmed from bytes are the same characters. */
  lemma BlanksAgree(c: nat)
    requires c < 0x10000
    ensures IsBlank(c) <==> Reply.Blank(Utf8(c))
  {
    if c >= 0x800 {
      WideBlanksAgree(c, c / 4096, c / 64 % 64, c % 64);
    }
  }

  lemma WideBlanksAgree(c: nat, a: nat, b: nat, d: nat)
    requires 0x800 <= c < 0x10000 && a == c / 4096 && b == c / 64 % 64 && d == c % 64
    ensures a < 16 && b < 64 && d < 64 && c == a * 4096 + b * 64 + d
    ensures IsBlank(c) <==> Reply.WideBlank(0xE0 + a, 0x80 + b, 0x80 + d)
  {
    assert c / 64 == a * 64 + b;
  }

  /** A character is accepted in a parsed value exactly when every byte of it is. */
  lemma OpaqueByBytes(c: nat)
    requires c < 0x10000
    ensures IsOpaque(c) <==>
              forall i :: 0 <= i < |Utf8(c)| ==> (32 <= Utf8(c)[i] && Utf8(c)[i] != 127) || Utf8(c)[i] == 9
  {
    if c < 0x80 {
      assert Utf8(c)[0] == c;
    }
  }

  function Joined(lines: seq<Text>): Text {
    if lines == [] then [] else if |lines| == 1 then lines[0] else lines[0] + BREAK + Joined(lines[1..])
  }

  /** Splitting loses nothing: the lines, joined by breaks, are the text. */
  lemma {:induction false} LinesRejoin(t: Text)
    ensures Lines(t) != [] && Joined(Lines(t)) == t
    decreases |t|
  {
    var n := Until(t);
    UntilIsABreak(t);
    if n + 2 <= |t| {
      LinesRejoin(t[n + 2..]);
      assert Lines(t)[1..] == Lines(t[n + 2..]);
      assert t == t[..n] + BREAK + t[n + 2..];
    }
  }

  /** And every line ends at the first break there is. */
  lemma {:induction false} UntilIsABreak(t: Text)
    ensures Until(t) + 2 <= |t| ==> t[Until(t)..Until(t) + 2] == BREAK
    ensures forall i :: 0 <= i < Until(t) && i + 2 <= |t| ==> !(t[i] == 13 && t[i + 1] == 10)
  {
    if |t| >= 2 && !(t[0] == 13 && t[1] == 10) {
      UntilIsABreak(t[1..]);
      var n := Until(t[1..]);
      if n + 2 <= |t[1..]| {
        assert t[1..][n..n + 2] == t[n + 1..n + 3];
      }
      forall i | 0 <= i < Until(t) && i + 2 <= |t| ensures !(t[i] == 13 && t[i + 1] == 10) {
        if i > 0 {
          assert t[1..][i - 1] == t[i] && t[1..][i] == t[i + 1];
        }
      }
    }
  }

  /** Any line that has a colon: what is before the first one, trimmed and in lower case, is the name, and all that
      follows it, trimmed, the value. */
  lemma LineIsNameAndValue(name: Text, value: Text)
    requires COLON !in name
    ensures var n, v := Trim(name), Trim(value);
            ParseLine(name + [58] + value)
            == if n != [] && |n| <= 65535 && AllTokens(n) && AllOpaque(v) then Some((ToLower(n), v)) else None
  {
    hide Trim, ToLower, AllTokens, AllOpaque;
    var line := name + [58] + value;
    FirstColon(name, value);
    assert line[..|name|] == name && line[|name| + 1..] == value;
  }

  lemma {:induction false} FirstColon(name: Text, value: Text)
    requires COLON !in name
    ensures Colon(name + [COLON] + value) == |name|
  {
    var t := name + [COLON] + value;
    if name != [] {
      assert t[0] == name[0] && t[1..] == name[1..] + [COLON] + value;
      FirstColon(name[1..], value);
    }
  }

  /** A line without one is no field. */
  lemma {:induction false} NoColonNoField(line: Text)
    requires COLON !in line
    ensures Colon(line) == |line| && ParseLine(line).None?
  {
    if line != [] {
      NoColonNoField(line[1..]);
    }
  }

  predicate IsSkipped(line: Text, trailers: bool) {
    line == [] || (trailers && TextOf("HTTP/") <= line)
  }

  /** No line goes unread: the block parses exactly if every line is empty, set aside as a status line, or a field,
      and then every field is there. */
  lemma {:induction false} EveryLineCounts(lines: seq<Text>, trailers: bool)
    ensures ParseLines(lines, trailers).Ok? <==>
              forall i :: 0 <= i < |lines| ==> IsSkipped(lines[i], trailers) || ParseLine(lines[i]).Some?
    ensures ParseLines(lines, trailers).Ok? ==>
              forall i :: 0 <= i < |lines| && !IsSkipped(lines[i], trailers) ==>
                ParseLine(lines[i]).value in ParseLines(lines, trailers).value
  {
    hide ParseLine;
    assert TextOf("HTTP/") == HTTP;
    if lines != [] {
      var rest := lines[1..];
      EveryLineCounts(rest, trailers);
      assert forall i :: 0 <= i < |rest| ==> rest[i] == lines[i + 1];
      if ParseLines(lines, trailers).Ok? {
        forall i | 0 <= i < |lines| && !IsSkipped(lines[i], trailers)
          ensures ParseLine(lines[i]).Some? && ParseLine(lines[i]).value in ParseLines(lines, trailers).value
        {
          if i > 0 {
            assert lines[i] == rest[i - 1];
          }
        }
      }
    }
  }

  /** What trimming takes away is blanks. */
  lemma TrimTakesBlanks(t: Text)
    ensures exists front, back :: t == front + Trim(t) + back && AllBlank(front) && AllBlank(back)
  {
    var front := StartTakesBlanks(t);
    var back := EndTakesBlanks(TrimStart(t));
    assert t == front + Trim(t) + back;
  }

  predicate AllBlank(t: Text) {
    forall i :: 0 <= i < |t| ==> IsBlank(t[i])
  }

  lemma {:induction false} StartTakesBlanks(t: Text) returns (front: Text)
    ensures t == front + TrimStart(t) && AllBlank(front)
  {
    front := [];
    if t != [] && IsBlank(t[0]) {
      var rest := StartTakesBlanks(t[1..]);
      front := [t[0]] + rest;
      assert t == [t[0]] + t[1..];
    }
  }

  lemma {:induction false} EndTakesBlanks(t: Text) returns (back: Text)
    ensures t == TrimEnd(t) + back && AllBlank(back)
  {
    back := [];
    if t != [] && IsBlank(t[|t| - 1]) {
      var rest := EndTakesBlanks(t[..|t| - 1]);
      back := rest + [t[|t| - 1]];
      assert t == t[..|t| - 1] + [t[|t| - 1]];
    }
  }

  // ---------------------------------------------------------------- what a printed line reads as

  lemma TokensAreNotBlank(t: Text)
    requires AllTokens(t)
    ensures Trim(t) == t && Trimmed(t)
  {
    if t != [] {
      assert IsToken(t[0]) && IsToken(t[|t| - 1]);
    }
  }

  lemma {:induction false} TrimIsTrimmed(t: Text)
    ensures Trimmed(Trim(t)) && (Trim(t) == t <==> Trimmed(t))
  {
    StartIsTrimmed(t);
    EndIsTrimmed(TrimStart(t));
  }

  lemma {:induction false} StartIsTrimmed(t: Text)
    ensures var s := TrimStart(t); |s| <= |t| && (s != [] ==> !IsBlank(s[0])) && (s == t || |s| < |t|)
  {
    if t != [] && IsBlank(t[0]) {
      StartIsTrimmed(t[1..]);
    }
  }

  lemma {:induction false} EndIsTrimmed(t: Text)
    ensures var s := TrimEnd(t);
            s <= t && (s != [] ==> !IsBlank(s[|s| - 1])) && (s == t <==> t == [] || !IsBlank(t[|t| - 1]))
  {
    if t != [] && IsBlank(t[|t| - 1]) {
      EndIsTrimmed(t[..|t| - 1]);
    }
  }

  /** A line of a name and a value reads as the name in lower case and the trimmed value, colons and all. */
  lemma LineOfTokens(name: Text, value: Text)
    requires AllTokens(name) && 0 < |name| <= MAX_NAME && AllVisible(value)
    ensures ParseLine(Line((name, value))) == Some((ToLower(name), Trim(value)))
  {
    var line := Line((name, value));
    assert line == name + [58] + ([BLANK] + value);
    assert COLON !in name by {
      if i: nat :| i < |name| && name[i] == COLON {
        assert IsToken(name[i]);
      }
    }
    LineIsNameAndValue(name, [BLANK] + value);
    TokensAreNotBlank(name);
    assert ([BLANK] + value)[1..] == value;
    assert Trim([BLANK] + value) == Trim(value);
    TrimmedIsPart(value);
  }

  lemma LineReadsBack(e: Entry)
    requires Sendable(e)
    ensures ParseLine(Line(e)) == Some((e.0, Trim(e.1)))
  {
    LineOfTokens(e.0, e.1);
    assert ToLower(e.0) == e.0;
  }

  lemma LineHasNoReturn(name: Text, value: Text)
    requires AllTokens(name) && AllVisible(value)
    ensures NoReturn(Line((name, value)))
  {
    var line := Line((name, value));
    forall i | 0 <= i < |line|
      ensures line[i] != 13
    {
      if i < |name| {
        assert IsToken(name[i]);
      } else if i >= |name| + 2 {
        assert IsVisible(value[i - |name| - 2]);
      }
    }
  }

  lemma TrimmedIsPart(t: Text)
    requires AllVisible(t)
    ensures AllOpaque(Trim(t))
  {
    StartIsSuffix(t);
    EndIsTrimmed(TrimStart(t));
  }

  lemma {:induction false} StartIsSuffix(t: Text)
    ensures |TrimStart(t)| <= |t| && TrimStart(t) == t[|t| - |TrimStart(t)|..]
  {
    if t != [] && IsBlank(t[0]) {
      StartIsSuffix(t[1..]);
    }
  }

  // ---------------------------------------------------------------- what a printed block reads as

  predicate NoReturn(t: Text) {
    forall i :: 0 <= i < |t| ==> t[i] != 13
  }

  lemma {:induction false} UntilBreak(line: Text, rest: Text)
    requires NoReturn(line)
    ensures Until(line + BREAK + rest) == |line|
  {
    var t := line + BREAK + rest;
    if line != [] {
      assert t[0] == line[0] && t[1..] == line[1..] + BREAK + rest;
      UntilBreak(line[1..], rest);
    }
  }

  lemma FirstLine(line: Text, rest: Text)
    requires NoReturn(line)
    ensures Lines(line + BREAK + rest) == [line] + Lines(rest)
  {
    var t := line + BREAK + rest;
    UntilBreak(line, rest);
    assert t[..|line|] == line && t[|line| + 2..] == rest;
  }

  /** The entry comes from a header map and can be sent. */
  predicate Sendable(e: Entry) {
    IsName(e.0) && AllVisible(e.1)
  }

  predicate AllSendable(listing: seq<Entry>) {
    forall i :: 0 <= i < |listing| ==> Sendable(listing[i])
  }

  function PrintedLines(listing: seq<Entry>): seq<Text> {
    seq(|listing|, i requires 0 <= i < |listing| => Line(listing[i]))
  }

  lemma SendableLine(e: Entry)
    requires Sendable(e)
    ensures NoReturn(Line(e)) && Line(e) != [] && !(HTTP <= Line(e))
  {
    var line := Line(e);
    assert line[0] == e.0[0] && Lower(line[0]) == line[0];
    LineHasNoReturn(e.0, e.1);
  }

  lemma {:induction false} BlockSplits(listing: seq<Entry>, rest: Text)
    requires AllSendable(listing)
    ensures Lines(Block(listing) + rest) == PrintedLines(listing) + Lines(rest)
  {
    hide Lines, Line, Sendable;
    if listing == [] {
      assert Block(listing) + rest == rest;
    } else {
      var front, e := listing[..|listing| - 1], listing[|listing| - 1];
      var more := Line(e) + BREAK + rest;
      assert Block(listing) + rest == Block(front) + more;
      BlockSplits(front, more);
      SendableLine(e);
      FirstLine(Line(e), rest);
      assert PrintedLines(listing) == PrintedLines(front) + [Line(e)];
    }
  }

  function TrimAll(listing: seq<Entry>): seq<Entry> {
    seq(|listing|, i requires 0 <= i < |listing| => (listing[i].0, Trim(listing[i].1)))
  }

  lemma {:induction false} PrintedLinesParse(listing: seq<Entry>, more: seq<Text>, trailers: bool)
    requires AllSendable(listing)
    ensures ParseLines(PrintedLines(listing) + more, trailers) == Prepend(TrimAll(listing), ParseLines(more, trailers))
  {
    hide ParseLine, Line, Trim, Sendable;
    if listing == [] {
      assert PrintedLines(listing) + more == more;
      PrependTwice([], [], ParseLines(more, trailers));
    } else {
      var e, rest := listing[0], listing[1..];
      SendableLine(e);
      LineReadsBack(e);
      PrintedLinesParse(rest, more, trailers);
      var lines := PrintedLines(listing) + more;
      assert lines[0] == Line(e) && lines[1..] == PrintedLines(rest) + more;
      assert TrimAll(listing) == [(e.0, Trim(e.1))] + TrimAll(rest);
      PrependTwice([(e.0, Trim(e.1))], TrimAll(rest), ParseLines(more, trailers));
    }
  }

  /** What either parser makes of a printed block: every entry in order, its value trimmed. */
  lemma BlockReadsBack(listing: seq<Entry>, trailers: bool)
    requires AllSendable(listing)
    ensures ParseLines(Lines(Block(listing)), trailers) == Ok(TrimAll(listing))
  {
    assert Block(listing) + [] == Block(listing);
    BlockSplits(listing, []);
    PrintedLinesParse(listing, [[]], trailers);
    assert ParseLines([[]], trailers) == Ok([]);
    assert TrimAll(listing) + [] == TrimAll(listing);
  }

  predicate AllTrimmed(listing: seq<Entry>) {
    forall i :: 0 <= i < |listing| ==> Trimmed(listing[i].1)
  }

  /** Printing and parsing are inverse on a listing exactly when its values are trimmed. */
  lemma RoundTrip(listing: seq<Entry>, trailers: bool)
    requires AllSendable(listing)
    ensures ParseLines(Lines(Block(listing)), trailers) == Ok(listing) <==> AllTrimmed(listing)
  {
    BlockReadsBack(listing, trailers);
    forall i | 0 <= i < |listing|
      ensures TrimAll(listing)[i] == listing[i] <==> Trimmed(listing[i].1)
    {
      TrimIsTrimmed(listing[i].1);
    }
    if AllTrimmed(listing) {
      assert TrimAll(listing) == listing;
    }
  }

  /** The values under one name, in order. */
  function ValuesOf(listing: seq<Entry>, name: Text): seq<Text> {
    if listing == [] then []
    else (if listing[0].0 == name then [listing[0].1] else []) + ValuesOf(listing[1..], name)
  }

  /** Two listings of the same header map: for every name the same values, repeats included, in order. */
  ghost predicate SameMap(a: seq<Entry>, b: seq<Entry>) {
    forall name :: ValuesOf(a, name) == ValuesOf(b, name)
  }

  function Trims(values: seq<Text>): seq<Text> {
    seq(|values|, i requires 0 <= i < |values| => Trim(values[i]))
  }

  lemma {:induction false} TrimmedValues(listing: seq<Entry>, name: Text)
    ensures ValuesOf(TrimAll(listing), name) == Trims(ValuesOf(listing, name))
  {
    hide Trim;
    if listing != [] {
      TrimmedValues(listing[1..], name);
      assert TrimAll(listing)[1..] == TrimAll(listing[1..]);
    }
  }

  lemma {:induction false} EntryIsAValue(listing: seq<Entry>, i: nat)
    requires i < |listing|
    ensures listing[i].1 in ValuesOf(listing, listing[i].0)
  {
    if i > 0 {
      EntryIsAValue(listing[1..], i - 1);
    }
  }

  /** Whatever order the map is listed in, the peer gets the same map back if and only if every value is
      trimmed. */
  lemma MapRoundTrip(listing: seq<Entry>, trailers: bool)
    requires AllSendable(listing)
    ensures var r := ParseLines(Lines(Block(listing)), trailers);
            r.Ok? && (SameMap(r.value, listing) <==> AllTrimmed(listing))
  {
    BlockReadsBack(listing, trailers);
    RoundTrip(listing, trailers);
    if SameMap(TrimAll(listing), listing) {
      forall i | 0 <= i < |listing|
        ensures Trimmed(listing[i].1)
      {
        var name, value := listing[i].0, listing[i].1;
        TrimmedValues(listing, name);
        EntryIsAValue(listing, i);
        var k :| 0 <= k < |ValuesOf(listing, name)| && ValuesOf(listing, name)[k] == value;
        assert ValuesOf(TrimAll(listing), name)[k] == Trim(value);
        TrimIsTrimmed(value);
      }
    }
  }

  /** A value with a blank at its edge is legal and does not survive. */
  lemma PaddedValueIsLost()
    ensures var listing := [([97], [98, 32])];
            AllSendable(listing) && ParseLines(Lines(Block(listing)), false) != Ok(listing)
  {
    var listing: seq<Entry> := [([97], [98, 32])];
    assert !Trimmed(listing[0].1);
    RoundTrip(listing, false);
  }

  // ---------------------------------------------------------------- the two parsers

  lemma {:induction false} TrimEndKeeps(t: Text, k: nat)
    requires k < |t| && !IsBlank(t[k])
    ensures k < |TrimEnd(t)| && TrimEnd(t)[k] == t[k]
  {
    if IsBlank(t[|t| - 1]) {
      TrimEndKeeps(t[..|t| - 1], k);
    }
  }

  /** A line that looks like a status line is never a header field. */
  lemma StatusLineIsNoField(line: Text)
    requires HTTP <= line
    ensures ParseLine(line).None?
  {
    var n := Colon(line);
    assert line[0] == 72 && line[1] == 84 && line[2] == 84 && line[3] == 80 && line[4] == 47;
    LateColon(line);
    if n < |line| {
      var name := line[..n];
      assert TrimStart(name) == name;
      TrimEndKeeps(name, 4);
      assert !IsToken(Trim(name)[4]);
    }
  }

  lemma LateColon(line: Text)
    requires HTTP <= line
    ensures Colon(line) >= 5
  {
    assert line[0] == 72 && line[1] == 84 && line[2] == 84 && line[3] == 80 && line[4] == 47;
    assert line[1..][0] == 84 && line[1..][1..] == line[2..] && line[2..][0] == 84 && line[2..][1..] == line[3..];
    assert line[3..][0] == 80 && line[3..][1..] == line[4..] && line[4..][0] == 47;
  }

  predicate HasStatusLine(lines: seq<Text>) {
    exists i :: 0 <= i < |lines| && HTTP <= lines[i]
  }

  /** Without a line that looks like a status line the parsers agree, errors included; with one the plain
      parser always fails. */
  lemma {:induction false} ParsersAgree(lines: seq<Text>)
    ensures !HasStatusLine(lines) ==> ParseLines(lines, false) == ParseLines(lines, true)
    ensures ParseLines(lines, false).Ok? <==> ParseLines(lines, true).Ok? && !HasStatusLine(lines)
  {
    hide ParseLine;
    if lines != [] {
      ParsersAgree(lines[1..]);
      if HTTP <= lines[0] {
        StatusLineIsNoField(lines[0]);
      } else if HasStatusLine(lines) {
        var i :| 0 <= i < |lines| && HTTP <= lines[i];
        assert lines[1..][i - 1] == lines[i];
      }
    }
  }

  /** A block after a status line is parsed as the block alone would be. */
  lemma StatusLineIsSetAside(status: Text, block: Text)
    requires NoReturn(status)
    ensures Lines(status + BREAK + block)[1..] == Lines(block)
  {
    FirstLine(status, block);
  }

  lemma LastLineParses(line: Text, e: Entry, trailers: bool)
    requires ParseLine(line) == Some(e) && !Skipped(line, trailers)
    ensures ParseLines([line] + [[]], trailers) == Ok([e])
  {
    hide ParseLine;
    var lines := [line] + [[]];
    assert lines[1..] == [[]];
    assert ParseLines([[]], trailers) == Ok([]);
    assert [e] + [] == [e];
  }

  /** The framing line appended to a block arrives after everything else. */
  lemma AppendedLineArrives(listing: seq<Entry>, name: Text, value: Text, trailers: bool)
    requires AllSendable(listing) && AllTokens(name) && 0 < |name| <= MAX_NAME && AllVisible(value)
    requires !(HTTP <= Line((name, value)))
    ensures var block := Append(if listing == [] then None else Some(Block(listing)), Line((name, value)));
            ParseLines(Lines(block), trailers) == Ok(TrimAll(listing) + [(ToLower(name), Trim(value))])
  {
    hide ParseLine, Trim, ToLower, AllVisible, AllTokens, AllSendable, ParseLines, Block, TrimAll, PrintedLines, Lines;
    var line := Line((name, value));
    NoBlock();
    assert Append(if listing == [] then None else Some(Block(listing)), line) == Block(listing) + (line + BREAK + []);
    BlockSplits(listing, line + BREAK + []);
    LineOfTokens(name, value);
    LineHasNoReturn(name, value);
    FirstLine(line, []);
    PrintedLinesParse(listing, [line] + [[]], trailers);
    LastLineParses(line, (ToLower(name), Trim(value)), trailers);
  }

  lemma NoBlock()
    ensures Block([]) == [] && Lines([]) == [[]]
  {
  }

  /** The line the client appends for a body of unknown length arrives as that header. */
  lemma ChunkedLineArrives(listing: seq<Entry>)
    requires AllSendable(listing)
    ensures var before := if listing == [] then None else Some(Block(listing));
            var block := Append(before, TextOf("Transfer-Encoding: chunked"));
            ParseLines(Lines(block), false)
            == Ok(TrimAll(listing) + [(TextOf("transfer-encoding"), TextOf("chunked"))])
  {
    hide ParseLines, Lines, TrimAll, TextOf, AllSendable, Block, Line, AllTokens, AllVisible, Trim, ToLower;
    var name, value := TextOf("Transfer-Encoding"), TextOf("chunked");
    ChunkedLine();
    AppendedLineArrives(listing, name, value, false);
  }

  lemma ChunkedLine()
    ensures var name, value := TextOf("Transfer-Encoding"), TextOf("chunked");
            && TextOf("Transfer-Encoding: chunked") == Line((name, value)) && !(HTTP <= Line((name, value)))
            && AllTokens(name) && 0 < |name| <= MAX_NAME && AllVisible(value)
            && ToLower(name) == TextOf("transfer-encoding") && Trim(value) == value
  {
    hide Trim, ToLower;
    var name, value := TextOf("Transfer-Encoding"), TextOf("chunked");
    assert Line((name, value))[0] == 84;
    ChunkedInLowerCase();
    TrimIsTrimmed(value);
  }

  lemma ChunkedInLowerCase()
    ensures ToLower(TextOf("Transfer-Encoding")) == TextOf("transfer-encoding")
  {
  }

  /** Whatever was sent, a parsed name is a token in lower case. */
  lemma ParsedNamesAreLower(line: Text)
    ensures ParseLine(line).Some? ==> IsName(ParseLine(line).value.0)
  {
    hide Trim;
    if ParseLine(line).Some? {
      var n := Trim(line[..Colon(line)]);
      assert forall i :: 0 <= i < |n| ==> IsToken(n[i]) && ToLower(n)[i] == Lower(n[i]);
    }
  }

  // ---------------------------------------------------------------- the declared length of a response

  /** One declaration of a response: visible text that reads as a length. */
  function LengthOf(value: Bytes): Option<nat> {
    if forall i :: 0 <= i < |value| ==> IsVisible(value[i]) then Reply.LengthOf(value) else None
  }

  /** Every value is the visible text of this length. */
  ghost predicate Agree(values: seq<Bytes>, n: nat) {
    values != [] && forall i :: 0 <= i < |values| ==> IsDeclaration(values[i], n)
  }

  ghost predicate IsDeclaration(value: Bytes, n: nat) {
    Reply.IsLength(value, n) && forall i :: 0 <= i < |value| ==> 32 <= value[i] <= 126 || value[i] == 9
  }

  lemma DeclarationIsRead(value: Bytes, n: nat)
    ensures LengthOf(value) == Some(n) <==> IsDeclaration(value, n)
  {
    Reply.LengthOfMeans(value, n);
  }

  /** A length if every declaration is one and they agree; nothing otherwise. */
  method ContentLength(headers: Reply.Headers) returns (r: Option<nat>)
    ensures forall n: nat :: r == Some(n) <==> Agree(Reply.Values(headers, Reply.CONTENT_LENGTH), n)
  {
    var values := Reply.Values(headers, Reply.CONTENT_LENGTH);
    r := None;
    for i := 0 to |values|
      invariant r.None? <==> i == 0
      invariant r.Some? ==> forall k :: 0 <= k < i ==> LengthOf(values[k]) == r
    {
      var parsed := LengthOf(values[i]);
      if parsed.None? || (r.Some? && r != parsed) {
        assert r.Some? ==> LengthOf(values[0]) == r;
        forall n: nat ensures !Agree(values, n) {
          DeclarationIsRead(values[i], n);
          DeclarationIsRead(values[0], n);
        }
        return None;
      }
      r := parsed;
    }
    forall n: nat ensures r == Some(n) <==> Agree(values, n) {
      forall k | 0 <= k < |values| ensures LengthOf(values[k]) == Some(n) <==> IsDeclaration(values[k], n) {
        DeclarationIsRead(values[k], n);
      }
      assert r.Some? ==> LengthOf(values[0]) == r;
    }
  }
}
