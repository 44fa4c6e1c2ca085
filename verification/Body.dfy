/** A message body as the `http_body` interface yields it, frame by frame. */
module Body {
  import opened Wrappers
  import opened Wire

  /** Trailer fields, by name. */
  type Fields = map<string, seq<Bytes>>

  /** Data (possibly empty), trailers, or the error the body failed with.  A body is over when the
      list is; what follows an error is never asked for. */
  datatype Frame = Data(bytes: Bytes) | Trailers(fields: Fields) | Fault(code: nat)

  /** The non-empty data frames the body yields before it ends or fails. */
  function Pieces(frames: seq<Frame>): (p: seq<Bytes>)
    ensures forall i :: 0 <= i < |p| ==> p[i] != []
  {
    if frames == [] || frames[0].Fault? then []
    else if frames[0].Data? && frames[0].bytes != [] then [frames[0].bytes] + Pieces(frames[1..])
    else Pieces(frames[1..])
  }

  /** The error the body fails with, if it does. */
  function Failure(frames: seq<Frame>): Option<nat> {
    if frames == [] then None
    else if frames[0].Fault? then Some(frames[0].code)
    else Failure(frames[1..])
  }

  /** The position of the frame a body fails with, or its length. */
  function FaultAt(frames: seq<Frame>): (n: nat)
    ensures n <= |frames| && (n < |frames| ==> frames[n].Fault?)
  {
    if frames == [] || frames[0].Fault? then 0 else 1 + FaultAt(frames[1..])
  }

  lemma {:induction false} FaultIsFailure(frames: seq<Frame>)
    ensures Failure(frames) == if FaultAt(frames) < |frames| then Some(frames[FaultAt(frames)].code) else None
  {
    if frames != [] && !frames[0].Fault? {
      FaultIsFailure(frames[1..]);
    }
  }

  /** All the data the body carries. */
  function Content(frames: seq<Frame>): Bytes {
    Flatten(Pieces(frames))
  }

  function AllData(frames: seq<Frame>): Bytes {
    if frames == [] then [] else (if frames[0].Data? then frames[0].bytes else []) + AllData(frames[1..])
  }

  /** It is every byte of every data frame up to the failure. */
  lemma {:induction false} ContentIsAllData(frames: seq<Frame>)
    ensures Content(frames) == AllData(frames[..FaultAt(frames)])
  {
    if frames != [] && !frames[0].Fault? {
      ContentIsAllData(frames[1..]);
      var front := frames[..FaultAt(frames)];
      assert front[1..] == frames[1..][..FaultAt(frames[1..])];
      if frames[0].Data? && frames[0].bytes != [] {
        assert Pieces(frames)[1..] == Pieces(frames[1..]);
      }
    }
  }

  /** The next data frame, skipping trailers and empty frames: the end, a non-empty piece, or an error. */
  method NextChunk(frames: seq<Frame>) returns (r: Result<Option<Bytes>, nat>, rest: seq<Frame>)
    ensures r.Ok? && r.value.None? ==>
              Pieces(frames) == Pieces(rest) == [] && Failure(frames) == Failure(rest) == None && rest == []
    ensures r.Ok? && r.value.Some? ==>
              Pieces(frames) == [r.value.value] + Pieces(rest) && Failure(frames) == Failure(rest)
    ensures r.Err? ==> Pieces(frames) == [] && Failure(frames) == Some(r.error)
  {
    rest := frames;
    while rest != []
      invariant Pieces(rest) == Pieces(frames) && Failure(rest) == Failure(frames)
      decreases |rest|
    {
      var frame := rest[0];
      if frame.Fault? {
        return Err(frame.code), rest;
      }
      rest := rest[1..];
      if frame.Data? && frame.bytes != [] {
        return Ok(Some(frame.bytes)), rest;
      }
    }
    return Ok(None), rest;
  }

  // ---------------------------------------------------------------- framing

  /** How a body is delimited on the wire: by a declared length, or by its own chunks. */
  datatype Framing = Exact(length: nat) | Chunked

  /** One piece as it goes to the wire. */
  function Framed(piece: Bytes, framing: Framing): Bytes {
    if framing.Chunked? then Chunk(piece) else piece
  }

  function Terminator(framing: Framing): Bytes {
    if framing.Chunked? then LAST_CHUNK else []
  }

  /** The pieces on the wire without the terminator. */
  function FramedPieces(pieces: seq<Bytes>, framing: Framing): Bytes {
    if framing.Chunked? then Flatten(Chunks(pieces)) else Flatten(pieces)
  }

  lemma OnePieceMore(pieces: seq<Bytes>, piece: Bytes, framing: Framing)
    ensures FramedPieces(pieces + [piece], framing) == FramedPieces(pieces, framing) + Framed(piece, framing)
  {
    FlattenAppend(pieces, [piece]);
    FlattenOne(piece);
    assert Chunks(pieces + [piece]) == Chunks(pieces) + [Chunk(piece)];
    FlattenAppend(Chunks(pieces), [Chunk(piece)]);
    FlattenOne(Chunk(piece));
  }
}
