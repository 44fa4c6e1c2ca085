/**
 The head of a reply: which caller headers pass, what length the caller declared, and
 which replies may carry a body or declare one.
 */
module Reply {
  import opened Wrappers
  import opened Wire

  /** Header names are held in lower case. */
  type Headers = seq<(string, Bytes)>

  const CONTENT_LENGTH := "content-length"
  const TRANSFER_ENCODING := "transfer-encoding"
  const DATE := "date"
  const SERVER := "server"

  /** A reply as handed to HTTP.sys: known slots hold one value, the list holds every other line. */
  datatype Head = Head(status: nat, listed: Headers, date: Option<Bytes>, server: Option<Bytes>,
                       contentLength: Option<Bytes>, transferEncoding: Option<Bytes>)

  datatype HeadError = FramingHeaderNotAllowed | BadContentLength

  // ---------------------------------------------------------------- the declared length

  /** The UTF-8 encodings of Unicode `White_Space`, by length. */
  predicate Blank(s: Bytes) {
    || (|s| == 1 && (9 <= s[0] <= 13 || s[0] == 32))
    || (|s| == 2 && s[0] == 0xC2 && (s[1] == 0x85 || s[1] == 0xA0))
    || (|s| == 3 && WideBlank(s[0], s[1], s[2]))
  }

  predicate WideBlank(a: Byte, b: Byte, c: Byte) {
    || (a == 0xE1 && b == 0x9A && c == 0x80)
    || (a == 0xE2 && b == 0x80 && (0x80 <= c <= 0x8A || c == 0xA8 || c == 0xA9 || c == 0xAF))
    || (a == 0xE2 && b == 0x81 && c == 0x9F)
    || (a == 0xE3 && b == 0x80 && c == 0x80)
  }

  /** The length of the blank at the front, or zero. */
  function FrontBlank(s: Bytes): (n: nat)
    ensures n <= |s|
  {
    if |s| >= 1 && Blank(s[..1]) then 1
    else if |s| >= 2 && Blank(s[..2]) then 2
    else if |s| >= 3 && Blank(s[..3]) then 3
    else 0
  }

  function EndBlank(s: Bytes): (n: nat)
    ensures n <= |s|
  {
    if |s| >= 1 && Blank(s[|s| - 1..]) then 1
    else if |s| >= 2 && Blank(s[|s| - 2..]) then 2
    else if |s| >= 3 && Blank(s[|s| - 3..]) then 3
    else 0
  }

  lemma FoundIsBlank(s: Bytes)
    ensures FrontBlank(s) > 0 ==> Blank(s[..FrontBlank(s)])
    ensures EndBlank(s) > 0 ==> Blank(s[|s| - EndBlank(s)..])
  {
    hide Blank;
  }

  function Trim(s: Bytes): Bytes
    decreases |s|
  {
    if FrontBlank(s) > 0 then Trim(s[FrontBlank(s)..])
    else if EndBlank(s) > 0 then Trim(s[..|s| - EndBlank(s)])
    else s
  }

  const U64_LIMIT: nat := 0x1_0000_0000_0000_0000

  /** Reading a `u64` as the standard library does: digits after an optional plus sign, in range. */
  function ParseU64(s: Bytes): Option<nat> {
    var digits := if s != [] && s[0] == 43 then s[1..] else s;
    match ReadNumber(digits, Decimal)
    case Some(n) => if n < U64_LIMIT then Some(n) else None
    case None => None
  }

  function LengthOf(value: Bytes): Option<nat> {
    ParseU64(Trim(value))
  }

  // ---------------------------------------------------------------- what such a text is

  predicate IsDecimal(s: Bytes) {
    s != [] && forall i :: 0 <= i < |s| ==> 48 <= s[i] <= 57
  }

  /** Digits read from the left, ten times what came before and one more. */
  function DecimalValue(s: Bytes): nat
    requires forall i :: 0 <= i < |s| ==> 48 <= s[i] <= 57
  {
    if s == [] then 0 else DecimalValue(s[..|s| - 1]) * 10 + (s[|s| - 1] - 48)
  }

  /** Nothing but blanks. */
  predicate Blanks(parts: seq<Bytes>) {
    forall i :: 0 <= i < |parts| ==> Blank(parts[i])
  }

  /** The text of a length: decimal digits of a `u64`, after a plus sign or none, between blanks. */
  ghost predicate IsLength(v: Bytes, n: nat) {
    n < 0x1_0000_0000_0000_0000 && exists front, sign, digits, back ::
      && v == Between(front, sign, digits, back) && Blanks(front) && Blanks(back)
      && (sign == [] || sign == [43]) && IsDecimal(digits) && DecimalValue(digits) == n
  }

  function Between(front: seq<Bytes>, sign: Bytes, digits: Bytes, back: seq<Bytes>): Bytes {
    Flatten(front) + (sign + digits) + Flatten(back)
  }

  lemma {:induction false} DecimalReads(s: Bytes)
    ensures ReadDigits(s, Decimal).Some? <==> forall i :: 0 <= i < |s| ==> 48 <= s[i] <= 57
    ensures ReadDigits(s, Decimal).Some? ==> ReadDigits(s, Decimal).value == DecimalValue(s)
  {
    if s != [] {
      var front := s[..|s| - 1];
      DecimalReads(front);
      assert forall i :: 0 <= i < |front| ==> s[i] == front[i];
    }
  }

  lemma BlankFront(b: Bytes, s: Bytes)
    requires Blank(b)
    ensures FrontBlank(b + s) == |b|
  {
    var t := b + s;
    assert t[..|b|] == b;
    if |b| > 1 {
      assert t[..1][0] == b[0];
    }
    if |b| > 2 {
      assert t[..2][0] == b[0];
    }
  }

  lemma BlankEnd(s: Bytes, b: Bytes)
    requires Blank(b)
    ensures EndBlank(s + b) == |b|
  {
    var t := s + b;
    assert t[|t| - |b|..] == b;
    if |b| > 1 {
      assert t[|t| - 1..][0] == b[|b| - 1];
    }
    if |b| > 2 {
      assert t[|t| - 2..][0] == b[|b| - 2];
    }
  }

  lemma TrimOne(s: Bytes)
    ensures FrontBlank(s) > 0 ==> Trim(s) == Trim(s[FrontBlank(s)..])
    ensures FrontBlank(s) == 0 && EndBlank(s) > 0 ==> Trim(s) == Trim(s[..|s| - EndBlank(s)])
    ensures FrontBlank(s) == 0 && EndBlank(s) == 0 ==> Trim(s) == s
  {
    hide Blank, FrontBlank, EndBlank;
  }

  /** Blanks at the front go. */
  lemma {:induction false} TrimsFront(front: seq<Bytes>, s: Bytes)
    requires Blanks(front)
    ensures Trim(Flatten(front) + s) == Trim(s)
  {
    hide Trim, FrontBlank, EndBlank, Blank;
    if front == [] {
      assert Flatten(front) + s == s;
    } else {
      var t := Flatten(front[1..]) + s;
      assert Flatten(front) + s == front[0] + t;
      BlankFront(front[0], t);
      BlanksAreNoDigits(front[0]);
      TrimOne(front[0] + t);
      assert (front[0] + t)[|front[0]|..] == t;
      TrimsFront(front[1..], s);
    }
  }

  /** Blanks at the end go, once nothing is left to trim at the front. */
  lemma {:induction false} TrimsEnd(s: Bytes, back: seq<Bytes>)
    requires Blanks(back) && s != [] && 43 <= s[0] <= 57
    ensures Trim(s + Flatten(back)) == Trim(s)
  {
    hide Trim, FrontBlank, EndBlank, Blank, Flatten;
    if back == [] {
      assert Flatten([]) == [] by { NothingFlat(); }
      assert s + [] == s;
    } else {
      var init, last := back[..|back| - 1], back[|back| - 1];
      assert back == init + [last];
      FlattenAppend(init, [last]);
      FlattenOne(last);
      var t := s + Flatten(init);
      assert s + Flatten(back) == t + last;
      BlankEnd(t, last);
      BlanksAreNoDigits(last);
      NoBlankFront(t + last);
      TrimOne(t + last);
      assert (t + last)[..|t|] == t;
      TrimsEnd(s, init);
    }
  }

  lemma NothingFlat()
    ensures Flatten([]) == []
  {
  }

  lemma BlanksAreNoDigits(b: Bytes)
    requires Blank(b)
    ensures b != [] && !(43 <= b[0] <= 57) && !(43 <= b[|b| - 1] <= 57)
  {
  }

  lemma NoBlankFront(s: Bytes)
    requires s != [] && 43 <= s[0] <= 57
    ensures FrontBlank(s) == 0
  {
    hide FrontBlank, Blank;
    FoundIsBlank(s);
    if FrontBlank(s) > 0 {
      BlanksAreNoDigits(s[..FrontBlank(s)]);
      assert false;
    }
  }

  lemma NoBlankEnd(s: Bytes)
    requires s != [] && 48 <= s[|s| - 1] <= 57
    ensures EndBlank(s) == 0
  {
    hide EndBlank, Blank;
    FoundIsBlank(s);
    if EndBlank(s) > 0 {
      BlanksAreNoDigits(s[|s| - EndBlank(s)..]);
      assert false;
    }
  }

  lemma PutFront(b: Bytes, front: seq<Bytes>, core: Bytes, back: Bytes)
    ensures Flatten([b] + front) + core + back == b + (Flatten(front) + core + back)
  {
    FlattenAppend([b], front);
    FlattenOne(b);
  }

  lemma PutBack(front: Bytes, core: Bytes, back: seq<Bytes>, b: Bytes)
    ensures front + core + Flatten(back + [b]) == (front + core + Flatten(back)) + b
  {
    FlattenAppend(back, [b]);
    FlattenOne(b);
  }

  /** What trimming takes away is blanks. */
  lemma {:induction false} TrimTakesBlanks(s: Bytes) returns (front: seq<Bytes>, back: seq<Bytes>)
    ensures s == Flatten(front) + Trim(s) + Flatten(back) && Blanks(front) && Blanks(back)
    decreases |s|
  {
    hide Trim, FrontBlank, EndBlank, Blank, Flatten;
    TrimOne(s);
    FoundIsBlank(s);
    if FrontBlank(s) > 0 {
      var k := FrontBlank(s);
      var rest;
      rest, back := TrimTakesBlanks(s[k..]);
      PutFront(s[..k], rest, Trim(s), Flatten(back));
      front := [s[..k]] + rest;
      assert s[..k] + s[k..] == s;
    } else if EndBlank(s) > 0 {
      var k := |s| - EndBlank(s);
      var rest;
      front, rest := TrimTakesBlanks(s[..k]);
      PutBack(Flatten(front), Trim(s), rest, s[k..]);
      back := rest + [s[k..]];
      assert s[..k] + s[k..] == s;
    } else {
      NothingFlat();
      front, back := [], [];
      assert [] + s + [] == s;
    }
  }

  lemma ParsesSigned(sign: Bytes, digits: Bytes)
    requires (sign == [] || sign == [43]) && IsDecimal(digits)
    ensures ParseU64(sign + digits) == if DecimalValue(digits) < U64_LIMIT then Some(DecimalValue(digits)) else None
  {
    DecimalReads(digits);
    var s := sign + digits;
    if sign == [43] {
      assert s[1..] == digits;
    } else {
      assert s == digits;
    }
  }

  /** The parser reads a length exactly where there is one, and that one. */
  lemma LengthOfMeans(v: Bytes, n: nat)
    ensures LengthOf(v) == Some(n) <==> IsLength(v, n)
  {
    if LengthOf(v) == Some(n) {
      LengthIsThere(v, n);
    }
    if IsLength(v, n) {
      var front, sign, digits, back :|
        && v == Between(front, sign, digits, back) && Blanks(front) && Blanks(back)
        && (sign == [] || sign == [43]) && IsDecimal(digits) && DecimalValue(digits) == n;
      LengthIsRead(front, sign, digits, back);
    }
  }

  lemma LengthIsThere(v: Bytes, n: nat)
    requires LengthOf(v) == Some(n)
    ensures IsLength(v, n)
  {
    hide Trim, Blank, Flatten, ReadDigits, DecimalValue;
    var t := Trim(v);
    var sign := if t != [] && t[0] == 43 then [43] else [];
    var digits := if t != [] && t[0] == 43 then t[1..] else t;
    DecimalReads(digits);
    assert t == sign + digits;
    var front, back := TrimTakesBlanks(v);
    assert v == Between(front, sign, digits, back);
  }

  lemma LengthIsRead(front: seq<Bytes>, sign: Bytes, digits: Bytes, back: seq<Bytes>)
    requires Blanks(front) && Blanks(back) && (sign == [] || sign == [43]) && IsDecimal(digits)
    ensures LengthOf(Between(front, sign, digits, back))
            == if DecimalValue(digits) < U64_LIMIT then Some(DecimalValue(digits)) else None
  {
    hide Trim, Blanks, ParseU64, Flatten;
    var core := sign + digits;
    assert Between(front, sign, digits, back) == Flatten(front) + (core + Flatten(back));
    TrimsFront(front, core + Flatten(back));
    assert core[0] == 43 || core[0] == digits[0];
    TrimsEnd(core, back);
    assert core[|core| - 1] == digits[|digits| - 1];
    NothingToTrim(core);
    ParsesSigned(sign, digits);
  }

  lemma NothingToTrim(s: Bytes)
    requires s != [] && 43 <= s[0] <= 57 && 48 <= s[|s| - 1] <= 57
    ensures Trim(s) == s
  {
    NoBlankFront(s);
    NoBlankEnd(s);
  }

  lemma {:induction false} PrintIsDecimal(n: nat)
    ensures IsDecimal(Print(n, Decimal)) && DecimalValue(Print(n, Decimal)) == n
  {
    RadixLaw(n, Decimal);
    if n >= 10 {
      PrintIsDecimal(n / 10);
      var s := Print(n, Decimal);
      assert s[..|s| - 1] == Print(n / 10, Decimal);
    } else {
      assert Print(n, Decimal)[..0] == [];
    }
  }

  /** A caller who printed a length declared it, with blanks around it or none. */
  lemma PrintedLengthIsDeclared(front: seq<Bytes>, n: nat, back: seq<Bytes>)
    requires Blanks(front) && Blanks(back) && n < 0x1_0000_0000_0000_0000
    ensures var v := Flatten(front) + Print(n, Decimal) + Flatten(back); LengthOf(v) == Some(n) && IsLength(v, n)
  {
    hide LengthOf, IsLength, Print, Flatten, DecimalValue, IsDecimal;
    var digits := Print(n, Decimal);
    PrintIsDecimal(n);
    assert [] + digits == digits;
    LengthIsRead(front, [], digits, back);
    LengthOfMeans(Flatten(front) + digits + Flatten(back), n);
  }

  /** The values of every header of this name, in order. */
  function Values(headers: Headers, name: string): seq<Bytes> {
    if headers == [] then []
    else if headers[0].0 == name then [headers[0].1] + Values(headers[1..], name)
    else Values(headers[1..], name)
  }

  /** Every declaration is a length, and they agree. */
  ghost predicate Agree(values: seq<Bytes>, n: nat) {
    forall i :: 0 <= i < |values| ==> IsLength(values[i], n)
  }

  lemma Agreement(values: seq<Bytes>, n: nat)
    requires forall k :: 0 <= k < |values| ==> LengthOf(values[k]) == Some(n)
    ensures Agree(values, n)
  {
    hide LengthOf, IsLength;
    forall k | 0 <= k < |values| ensures IsLength(values[k], n) {
      LengthOfMeans(values[k], n);
    }
  }

  /** A value that is no length, or another one than the first. */
  lemma NoAgreement(values: seq<Bytes>, i: nat)
    requires i < |values| && (LengthOf(values[i]).None? || LengthOf(values[i]) != LengthOf(values[0]))
    ensures forall n :: !Agree(values, n)
  {
    hide LengthOf, IsLength;
    forall n ensures !Agree(values, n) {
      LengthOfMeans(values[i], n);
      LengthOfMeans(values[0], n);
    }
  }

  /** A text is the text of one length. */
  lemma OneLength(v: Bytes, n: nat, m: nat)
    requires IsLength(v, n) && IsLength(v, m)
    ensures n == m
  {
    hide IsLength, LengthOf;
    LengthOfMeans(v, n);
    LengthOfMeans(v, m);
  }

  /** The caller's own `Content-Length`: none, one number however often repeated, or an error. */
  method DeclaredLength(headers: Headers) returns (r: Result<Option<nat>, HeadError>)
    ensures r == Ok(None) <==> Values(headers, CONTENT_LENGTH) == []
    ensures r.Ok? && r.value.Some? ==>
              Values(headers, CONTENT_LENGTH) != [] && Agree(Values(headers, CONTENT_LENGTH), r.value.value)
    ensures r.Err? ==> forall n :: !Agree(Values(headers, CONTENT_LENGTH), n)
  {
    hide LengthOf, IsLength, Agree, Values;
    var values := Values(headers, CONTENT_LENGTH);
    var found: Option<nat> := None;
    for i := 0 to |values|
      invariant found.None? <==> i == 0
      invariant found.Some? ==> forall k :: 0 <= k < i ==> LengthOf(values[k]) == found
    {
      var parsed := LengthOf(values[i]);
      if parsed.None? || (found.Some? && found != parsed) {
        assert found.Some? ==> LengthOf(values[0]) == found;
        NoAgreement(values, i);
        return Err(BadContentLength);
      }
      found := parsed;
    }
    if found.Some? {
      Agreement(values, found.value);
    }
    return Ok(found);
  }

  // ---------------------------------------------------------------- the caller's headers

  function LastValue(headers: Headers, name: string): Option<Bytes> {
    var values := Values(headers, name);
    if values == [] then None else Some(values[|values| - 1])
  }

  /** The lines that go through the list: everything but the two framing headers and the two headers
      HTTP.sys would otherwise repeat. */
  function Listed(headers: Headers): Headers {
    if headers == [] then []
    else if headers[0].0 in [CONTENT_LENGTH, TRANSFER_ENCODING, DATE, SERVER] then Listed(headers[1..])
    else [headers[0]] + Listed(headers[1..])
  }

  /** Every header but those four arrives, with all its values in order. */
  lemma {:induction false} ListedKeeps(headers: Headers, name: string)
    ensures Values(Listed(headers), name)
            == if name in ["content-length", "transfer-encoding", "date", "server"] then [] else Values(headers, name)
  {
    if headers != [] {
      ListedKeeps(headers[1..], name);
      if headers[0].0 !in [CONTENT_LENGTH, TRANSFER_ENCODING, DATE, SERVER] {
        assert Listed(headers)[1..] == Listed(headers[1..]);
      }
    }
  }

  lemma {:induction false} ListedAppends(headers: Headers, h: (string, Bytes))
    ensures Listed(headers + [h]) == Listed(headers) + Listed([h])
  {
    if headers == [] {
      assert headers + [h] == [h];
    } else {
      assert (headers + [h])[1..] == headers[1..] + [h];
      ListedAppends(headers[1..], h);
    }
  }

  lemma {:induction false} ValuesAppend(headers: Headers, h: (string, Bytes), name: string)
    ensures Values(headers + [h], name) == Values(headers, name) + if h.0 == name then [h.1] else []
  {
    if headers == [] {
      assert headers + [h] == [h];
    } else {
      assert (headers + [h])[1..] == headers[1..] + [h];
      ValuesAppend(headers[1..], h, name);
    }
  }

  lemma NoHeaders(headers: Headers)
    ensures headers[..0] == [] && Listed([]) == []
    ensures forall name :: Values([], name) == [] && LastValue([], name) == None
  {
  }

  /** What the next header changes. */
  lemma OneHeaderMore(headers: Headers, i: nat)
    requires i < |headers|
    ensures var before, after, (name, value) := headers[..i], headers[..i + 1], headers[i];
            && Listed(after) == Listed(before) + Listed([headers[i]])
            && Listed([headers[i]])
               == (if name in [CONTENT_LENGTH, TRANSFER_ENCODING, DATE, SERVER] then [] else [headers[i]])
            && (Values(after, TRANSFER_ENCODING) == [] <==>
                  Values(before, TRANSFER_ENCODING) == [] && name != TRANSFER_ENCODING)
            && LastValue(after, DATE) == (if name == DATE then Some(value) else LastValue(before, DATE))
            && LastValue(after, SERVER) == (if name == SERVER then Some(value) else LastValue(before, SERVER))
  {
    assert headers[..i + 1] == headers[..i] + [headers[i]];
    ListedAppends(headers[..i], headers[i]);
    ValuesAppend(headers[..i], headers[i], TRANSFER_ENCODING);
    ValuesAppend(headers[..i], headers[i], DATE);
    ValuesAppend(headers[..i], headers[i], SERVER);
  }

  /** Writing the caller's status and headers into a reply: a transfer coding is refused, a length is
      left for the response path to declare, everything else arrives, repeats and order included. */
  method FromHttp(status: nat, headers: Headers) returns (r: Result<Head, HeadError>)
    ensures r.Err? <==> Values(headers, TRANSFER_ENCODING) != []
    ensures r.Ok? ==> r.value == Head(status, Listed(headers), LastValue(headers, DATE),
                                      LastValue(headers, SERVER), None, None)
    ensures r.Err? ==> r.error == FramingHeaderNotAllowed
  {
    hide Values, Listed, LastValue;
    NoHeaders(headers);
    var reply := Head(status, [], None, None, None, None);
    var i := 0;
    while i < |headers|
      invariant 0 <= i <= |headers|
      invariant Values(headers[..i], TRANSFER_ENCODING) == []
      invariant reply == Head(status, Listed(headers[..i]), LastValue(headers[..i], DATE),
                              LastValue(headers[..i], SERVER), None, None)
    {
      var (name, value) := headers[i];
      OneHeaderMore(headers, i);
      if name == TRANSFER_ENCODING {
        ValuesGrow(headers, i + 1, TRANSFER_ENCODING);
        return Err(FramingHeaderNotAllowed);
      }
      if name == CONTENT_LENGTH {
      } else if name == DATE {
        reply := reply.(date := Some(value));
      } else if name == SERVER {
        reply := reply.(server := Some(value));
      } else {
        reply := reply.(listed := reply.listed + [(name, value)]);
      }
      i := i + 1;
    }
    assert headers[..|headers|] == headers;
    return Ok(reply);
  }

  lemma {:induction false} ValuesGrow(headers: Headers, i: nat, name: string)
    requires i <= |headers|
    ensures |Values(headers[..i], name)| <= |Values(headers, name)|
    decreases |headers| - i
  {
    if i < |headers| {
      assert headers[..i + 1] == headers[..i] + [headers[i]];
      ValuesAppend(headers[..i], headers[i], name);
      ValuesGrow(headers, i + 1, name);
    } else {
      assert headers[..i] == headers;
    }
  }

  // ---------------------------------------------------------------- which replies have a body

  predicate Bodiless(status: nat) {
    100 <= status < 200 || status == 204 || status == 304
  }

  predicate MaySendBody(method_: string, status: nat) {
    method_ != "HEAD" && !Bodiless(status)
  }

  predicate MayDeclareLength(status: nat) {
    !Bodiless(status)
  }
}
