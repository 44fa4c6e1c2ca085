/**
 Bytes on the wire: numbers as text, the chunked coding as this crate writes it, and a
 decoder written from section 7.1 of RFC 9112 alone.
 */
module Wire {
  import opened Wrappers

  type Byte = x: int | 0 <= x < 256

  type Bytes = seq<Byte>

  const CRLF: Bytes := [13, 10]

  function Flatten(parts: seq<Bytes>): Bytes {
    if parts == [] then [] else parts[0] + Flatten(parts[1..])
  }

  lemma {:induction false} FlattenAppend(a: seq<Bytes>, b: seq<Bytes>)
    ensures Flatten(a + b) == Flatten(a) + Flatten(b)
  {
    if a == [] {
      assert a + b == b;
    } else {
      assert (a + b)[1..] == a[1..] + b;
      FlattenAppend(a[1..], b);
    }
  }

  lemma FlattenOne(a: Bytes)
    ensures Flatten([a]) == a
  {
    assert [a][1..] == [];
  }

  // ---------------------------------------------------------------- numbers

  datatype Radix = Decimal | Hexadecimal {
    function Size(): nat {
      if Decimal? then 10 else 16
    }

    /** All but the last digit. */
    function High(n: nat): nat {
      if Decimal? then n / 10 else n / 16
    }

    function Low(n: nat): nat {
      if Decimal? then n % 10 else n % 16
    }

    function Join(high: nat, low: nat): nat {
      if Decimal? then high * 10 + low else high * 16 + low
    }
  }

  function DigitOf(d: nat): Byte
    requires d < 16
  {
    if d < 10 then 48 + d else 87 + d
  }

  /** Lower-case digits, most significant first, as `{:x}` and `to_string` print them. */
  function Print(n: nat, radix: Radix): Bytes {
    if n < radix.Size() then [DigitOf(n)] else Print(radix.High(n), radix) + [DigitOf(radix.Low(n))]
  }

  /** The value of a digit in either case. */
  function DigitValue(b: Byte): Option<nat> {
    if 48 <= b <= 57 then Some(b - 48)
    else if 97 <= b <= 102 then Some(b - 87)
    else if 65 <= b <= 70 then Some(b - 55)
    else None
  }

  function ReadDigits(s: Bytes, radix: Radix): Option<nat> {
    if s == [] then Some(0)
    else
      match (ReadDigits(s[..|s| - 1], radix), DigitValue(s[|s| - 1]))
      case (Some(high), Some(d)) => if d < radix.Size() then Some(radix.Join(high, d)) else None
      case _ => None
  }

  /** One or more digits. */
  function ReadNumber(s: Bytes, radix: Radix): Option<nat> {
    if s == [] then None else ReadDigits(s, radix)
  }

  predicate AllDigits(s: Bytes) {
    forall i :: 0 <= i < |s| ==> DigitValue(s[i]).Some?
  }

  lemma DigitReadsBack(d: nat)
    requires d < 16
    ensures DigitValue(DigitOf(d)) == Some(d)
  {
  }

  lemma RadixLaw(n: nat, radix: Radix)
    ensures radix.Low(n) < radix.Size() && radix.Join(radix.High(n), radix.Low(n)) == n
    ensures n < radix.Size() ==> radix.Join(0, n) == n
  {
  }

  lemma {:induction false} PrintsDigits(n: nat, radix: Radix)
    ensures Print(n, radix) != [] && AllDigits(Print(n, radix))
  {
    RadixLaw(n, radix);
    if n < radix.Size() {
      DigitReadsBack(n);
    } else {
      DigitReadsBack(radix.Low(n));
      PrintsDigits(radix.High(n), radix);
    }
  }

  lemma ReadOneMore(s: Bytes, b: Byte, radix: Radix, high: nat, d: nat)
    requires ReadDigits(s, radix) == Some(high) && DigitValue(b) == Some(d) && d < radix.Size()
    ensures ReadDigits(s + [b], radix) == Some(radix.Join(high, d))
  {
    assert (s + [b])[..|s|] == s;
  }

  lemma {:induction false} PrintedDigitsReadBack(n: nat, radix: Radix)
    ensures ReadDigits(Print(n, radix), radix) == Some(n)
  {
    RadixLaw(n, radix);
    if n < radix.Size() {
      DigitReadsBack(n);
      assert [] + [DigitOf(n)] == Print(n, radix);
      ReadOneMore([], DigitOf(n), radix, 0, n);
    } else {
      DigitReadsBack(radix.Low(n));
      PrintedDigitsReadBack(radix.High(n), radix);
      ReadOneMore(Print(radix.High(n), radix), DigitOf(radix.Low(n)), radix, radix.High(n), radix.Low(n));
    }
  }

  lemma PrintedNumberReadsBack(n: nat, radix: Radix)
    ensures ReadNumber(Print(n, radix), radix) == Some(n)
  {
    PrintsDigits(n, radix);
    PrintedDigitsReadBack(n, radix);
  }

  // ---------------------------------------------------------------- what a chunk size is

  predicate IsHex(s: Bytes) {
    forall i :: 0 <= i < |s| ==> 48 <= s[i] <= 57 || 97 <= s[i] <= 102 || 65 <= s[i] <= 70
  }

  /** Digits read from the left, sixteen times what came before and one more; letters count from ten on, in either
      case. */
  function HexValue(s: Bytes): nat
    requires IsHex(s)
  {
    if s == [] then 0
    else
      var d := s[|s| - 1];
      HexValue(s[..|s| - 1]) * 16 + (if d <= 57 then d - 48 else if d >= 97 then d - 97 + 10 else d - 65 + 10)
  }

  /** A size is read exactly where there are hexadecimal digits, and it is their value. */
  lemma {:induction false} HexReads(s: Bytes)
    ensures ReadDigits(s, Hexadecimal) == if IsHex(s) then Some(HexValue(s)) else None
  {
    if s != [] {
      var front := s[..|s| - 1];
      HexReads(front);
      assert forall i :: 0 <= i < |front| ==> s[i] == front[i];
    }
  }

  /** A size is printed in lower case, without leading zeros. */
  lemma {:induction false} PrintIsHex(n: nat)
    ensures var s := Print(n, Hexadecimal);
            && s != [] && IsHex(s) && HexValue(s) == n
            && (forall i :: 0 <= i < |s| ==> s[i] <= 57 || 97 <= s[i])
            && (n > 0 ==> s[0] != 48)
  {
    HexReads(Print(n, Hexadecimal));
    PrintedDigitsReadBack(n, Hexadecimal);
    RadixLaw(n, Hexadecimal);
    if n >= 16 {
      PrintIsHex(n / 16);
    }
  }

  // ---------------------------------------------------------------- decoding

  /** What a recipient makes of the bytes it has: a whole body and what follows it, not enough yet,
      or nonsense. */
  datatype Decoded = Complete(body: Bytes, rest: Bytes) | Unfinished | Malformed

  /** Where the first line ends, or the length if no line ends here. */
  function LineEnd(s: Bytes): (n: nat)
    ensures n <= |s|
    ensures n + 2 <= |s| ==> s[n..n + 2] == CRLF
  {
    if |s| < 2 then |s|
    else if s[0] == 13 && s[1] == 10 then 0
    else
      var n := LineEnd(s[1..]);
      assert n + 2 <= |s[1..]| ==> s[1..][n..n + 2] == s[n + 1..n + 3];
      n + 1
  }

  predicate HasLine(s: Bytes) {
    LineEnd(s) + 2 <= |s|
  }

  /** The chunk size, ignoring a chunk extension and the blanks before it. */
  function ChunkSize(line: Bytes): Option<nat> {
    if line == [] then None
    else if 59 in line then ChunkSize(line[..|line| - 1])
    else if line[|line| - 1] == 32 || line[|line| - 1] == 9 then ChunkSize(line[..|line| - 1])
    else ReadNumber(line, Hexadecimal)
  }

  /** The trailer section: lines up to an empty one. */
  function DecodeTrailers(s: Bytes): Decoded
    decreases |s|
  {
    if !HasLine(s) then Unfinished
    else if LineEnd(s) == 0 then Complete([], s[2..])
    else DecodeTrailers(s[LineEnd(s) + 2..])
  }

  /** What the front of a chunked body is. */
  datatype Front = NoLine | BadLine | LastLine(n: nat) | Short | BadEnd | Data(n: nat, size: nat)

  function FrontOf(s: Bytes): (f: Front)
    ensures f.LastLine? ==> f.n + 2 <= |s|
    ensures f.Data? ==> f.n + 4 + f.size <= |s|
  {
    if !HasLine(s) then NoLine
    else
      var n := LineEnd(s);
      match ChunkSize(s[..n])
      case None => BadLine
      case Some(size) =>
        if size == 0 then LastLine(n)
        else if |s| < n + 4 + size then Short
        else if s[n + 2 + size..n + 4 + size] != CRLF then BadEnd
        else Data(n, size)
  }

  function DecodeChunked(s: Bytes): Decoded
    decreases |s|
  {
    match FrontOf(s)
    case NoLine => Unfinished
    case BadLine => Malformed
    case LastLine(n) => DecodeTrailers(s[n + 2..])
    case Short => Unfinished
    case BadEnd => Malformed
    case Data(n, size) =>
      match DecodeChunked(s[n + 4 + size..])
      case Complete(body, rest) => Complete(s[n + 2..n + 2 + size] + body, rest)
      case Unfinished => Unfinished
      case Malformed => Malformed
  }

  /** Once a recipient has reached a verdict, more bytes do not change it. */
  function Followed(d: Decoded, t: Bytes): Decoded {
    if d.Complete? then Complete(d.body, d.rest + t) else d
  }

  lemma {:induction false} LineEndIsStable(s: Bytes, t: Bytes)
    requires HasLine(s)
    ensures LineEnd(s + t) == LineEnd(s)
  {
    if !(s[0] == 13 && s[1] == 10) {
      assert (s + t)[1..] == s[1..] + t;
      LineEndIsStable(s[1..], t);
    }
  }

  lemma {:induction false} TrailersAreStable(s: Bytes, t: Bytes)
    ensures !DecodeTrailers(s).Unfinished? ==> DecodeTrailers(s + t) == Followed(DecodeTrailers(s), t)
    decreases |s|
  {
    if HasLine(s) {
      LineEndIsStable(s, t);
      var n := LineEnd(s);
      assert (s + t)[n + 2..] == s[n + 2..] + t;
      if n != 0 {
        TrailersAreStable(s[n + 2..], t);
      }
    }
  }

  lemma FrontIsStable(s: Bytes, t: Bytes)
    requires !FrontOf(s).NoLine? && !FrontOf(s).Short?
    ensures FrontOf(s + t) == FrontOf(s)
  {
    hide LineEnd, ChunkSize;
    LineEndIsStable(s, t);
    var n := LineEnd(s);
    assert (s + t)[..n] == s[..n];
    var size := ChunkSize(s[..n]);
    if size.Some? && size.value != 0 {
      assert (s + t)[n + 2 + size.value..n + 4 + size.value] == s[n + 2 + size.value..n + 4 + size.value];
    }
  }

  lemma {:induction false} DecodingIsStable(s: Bytes, t: Bytes)
    ensures !DecodeChunked(s).Unfinished? ==> DecodeChunked(s + t) == Followed(DecodeChunked(s), t)
    decreases |s|
  {
    hide FrontOf, DecodeTrailers;
    var f := FrontOf(s);
    if !f.NoLine? && !f.Short? {
      FrontIsStable(s, t);
    }
    if f.LastLine? {
      assert (s + t)[f.n + 2..] == s[f.n + 2..] + t;
      TrailersAreStable(s[f.n + 2..], t);
    } else if f.Data? {
      assert (s + t)[f.n + 4 + f.size..] == s[f.n + 4 + f.size..] + t;
      assert (s + t)[f.n + 2..f.n + 2 + f.size] == s[f.n + 2..f.n + 2 + f.size];
      DecodingIsStable(s[f.n + 4 + f.size..], t);
    }
  }

  // ---------------------------------------------------------------- encoding

  /** One chunk as the server, the client and the HTTP/2 fallback write it. */
  function Chunk(data: Bytes): Bytes {
    Print(|data|, Hexadecimal) + CRLF + data + CRLF
  }

  const LAST_CHUNK: Bytes := [48] + CRLF + CRLF

  /** A chunk is its size, a line end, its data and a line end, and the last one a zero and two line ends, as
      section 7.1 of RFC 9112 has it. */
  lemma ChunkFormat(data: Bytes)
    ensures exists size :: && Chunk(data) == size + [13, 10] + data + [13, 10]
                           && size != [] && IsHex(size) && HexValue(size) == |data|
    ensures LAST_CHUNK == [48, 13, 10, 13, 10]
  {
    hide Print, IsHex, HexValue;
    PrintIsHex(|data|);
  }

  function Chunks(parts: seq<Bytes>): seq<Bytes> {
    seq(|parts|, i requires 0 <= i < |parts| => Chunk(parts[i]))
  }

  function ChunkedBody(parts: seq<Bytes>): Bytes {
    Flatten(Chunks(parts)) + LAST_CHUNK
  }

  lemma {:induction false} DigitsHaveNoLineEnd(d: Bytes, t: Bytes)
    requires AllDigits(d)
    ensures LineEnd(d + CRLF + t) == |d|
  {
    var s := d + CRLF + t;
    if d != [] {
      assert s[0] == d[0] && DigitValue(s[0]).Some?;
      assert s[1..] == d[1..] + CRLF + t;
      DigitsHaveNoLineEnd(d[1..], t);
    }
  }

  lemma {:induction false} DigitsAreASize(d: Bytes)
    requires d != [] && AllDigits(d)
    ensures ChunkSize(d) == ReadNumber(d, Hexadecimal)
  {
    assert DigitValue(d[|d| - 1]).Some?;
  }

  /** Where the parts of a chunk are. */
  lemma ChunkLayout(d: Bytes, data: Bytes, t: Bytes)
    requires AllDigits(d)
    ensures var s, n, size := d + CRLF + data + CRLF + t, |d|, |data|;
            && LineEnd(s) == n && s[..n] == d
            && s[n + 2..n + 2 + size] == data
            && s[n + 2 + size..n + 4 + size] == CRLF
            && s[n + 4 + size..] == t
  {
    assert d + CRLF + data + CRLF + t == d + CRLF + (data + CRLF + t);
    DigitsHaveNoLineEnd(d, data + CRLF + t);
  }

  lemma ChunkIsFront(d: Bytes, data: Bytes, t: Bytes)
    requires AllDigits(d) && ChunkSize(d) == Some(|data|) && data != []
    ensures FrontOf(d + CRLF + data + CRLF + t) == Data(|d|, |data|)
  {
    hide LineEnd, ChunkSize;
    ChunkLayout(d, data, t);
  }

  lemma DecodeOneChunk(s: Bytes)
    requires FrontOf(s).Data?
    ensures var f := FrontOf(s);
            var rest := DecodeChunked(s[f.n + 4 + f.size..]);
            DecodeChunked(s)
            == if rest.Complete? then Complete(s[f.n + 2..f.n + 2 + f.size] + rest.body, rest.rest) else rest
  {
    hide FrontOf;
  }

  /** Reading one chunk gives its data and goes on with what follows. */
  lemma ChunkReadsBack(data: Bytes, t: Bytes)
    requires data != []
    ensures var rest := DecodeChunked(t);
            DecodeChunked(Chunk(data) + t)
            == if rest.Complete? then Complete(data + rest.body, rest.rest) else rest
  {
    hide DecodeChunked, FrontOf, Print, ChunkSize, ReadNumber, LineEnd, AllDigits;
    var d := Print(|data|, Hexadecimal);
    PrintsDigits(|data|, Hexadecimal);
    PrintedNumberReadsBack(|data|, Hexadecimal);
    DigitsAreASize(d);
    ChunkLayout(d, data, t);
    ChunkIsFront(d, data, t);
    DecodeOneChunk(d + CRLF + data + CRLF + t);
  }

  lemma LastChunkReadsBack(t: Bytes)
    ensures DecodeChunked(LAST_CHUNK + t) == Complete([], t)
  {
    var s := LAST_CHUNK + t;
    assert s == [48] + CRLF + (CRLF + t);
    DigitsHaveNoLineEnd([48], CRLF + t);
    assert LineEnd(s) == 1 && s[..1] == [48];
    assert ReadDigits([48], Hexadecimal) == Some(0) by {
      assert [48][..0] == [];
    }
    assert s[3..] == CRLF + t && (CRLF + t)[2..] == t;
    assert LineEnd(CRLF + t) == 0;
  }

  ghost predicate NoneEmpty(parts: seq<Bytes>) {
    forall i :: 0 <= i < |parts| ==> parts[i] != []
  }

  /** Non-empty chunks and the terminator decode to the concatenation, whatever follows. */
  lemma {:induction false} ChunkedBodyReadsBack(parts: seq<Bytes>, t: Bytes)
    requires NoneEmpty(parts)
    ensures DecodeChunked(ChunkedBody(parts) + t) == Complete(Flatten(parts), t)
  {
    hide DecodeChunked, Chunk;
    if parts == [] {
      assert ChunkedBody(parts) == LAST_CHUNK;
      LastChunkReadsBack(t);
    } else {
      ChunkedBodyReadsBack(parts[1..], t);
      assert Chunks(parts)[1..] == Chunks(parts[1..]);
      assert ChunkedBody(parts) + t == Chunk(parts[0]) + (ChunkedBody(parts[1..]) + t);
      ChunkReadsBack(parts[0], ChunkedBody(parts[1..]) + t);
    }
  }

  /** No proper prefix of a chunked body passes for a complete message, nor for a broken one. */
  lemma ChunkedBodyIsPrefixFree(parts: seq<Bytes>, k: nat)
    requires NoneEmpty(parts) && k < |ChunkedBody(parts)|
    ensures DecodeChunked(ChunkedBody(parts)[..k]).Unfinished?
  {
    var whole := ChunkedBody(parts);
    ChunkedBodyReadsBack(parts, []);
    assert whole + [] == whole;
    assert whole[..k] + whole[k..] == whole;
    DecodingIsStable(whole[..k], whole[k..]);
  }

  /** Why empty frames are skipped: with one of them the body does not read back, and without one it does. */
  lemma {:induction false} EmptyChunksEndTheBody(parts: seq<Bytes>)
    ensures DecodeChunked(ChunkedBody(parts)) == Complete(Flatten(parts), []) <==> NoneEmpty(parts)
  {
    assert ChunkedBody(parts) + [] == ChunkedBody(parts);
    if NoneEmpty(parts) {
      ChunkedBodyReadsBack(parts, []);
    } else {
      StopsAtTheFirstEmptyChunk(parts);
    }
  }

  lemma {:induction false} StopsAtTheFirstEmptyChunk(parts: seq<Bytes>)
    requires !NoneEmpty(parts)
    ensures var d := DecodeChunked(ChunkedBody(parts)); d.Complete? && d.rest != []
  {
    assert Chunks(parts)[1..] == Chunks(parts[1..]);
    var tail := ChunkedBody(parts[1..]);
    assert ChunkedBody(parts) == Chunk(parts[0]) + tail;
    if parts[0] == [] {
      assert Chunk([]) == LAST_CHUNK;
      LastChunkReadsBack(tail);
    } else {
      StopsAtTheFirstEmptyChunk(parts[1..]);
      ChunkReadsBack(parts[0], tail);
    }
  }
}
