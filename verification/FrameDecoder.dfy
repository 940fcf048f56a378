/** The length-prefixed frames of crates/workflow-ipc/src/frame.rs. */
module FrameDecoding {
  import opened Sequences
  import opened Bytes

  const MAX_FRAME_BYTES: nat := 8 * 1024 * 1024

  datatype FrameError = Empty | Oversized(announced: nat, maximum: nat) | Poisoned

  function EncodeFrame(payload: bytes): (r: Result<bytes, FrameError>)
    ensures r.Ok? <==> 0 < |payload| <= MAX_FRAME_BYTES
    ensures r.Ok? ==> |r.value| == 4 + |payload|
  {
    WordSizes();
    if payload == [] then Err(Empty)
    else if |payload| > MAX_FRAME_BYTES then Err(Oversized(|payload|, MAX_FRAME_BYTES))
    else Ok(BigEndian(|payload|, 4) + payload)
  }

  datatype DecodeState =
    | Header(filled: bytes)
    | Payload(received: bytes, length: nat)
    | Broken
  {
    predicate Valid() {
      match this
      case Header(filled) => |filled| < 4
      case Payload(received, length) => |received| < length <= MAX_FRAME_BYTES
      case Broken => true
    }

    /** The bytes of the unfinished frame, as they came in. */
    function Held(): bytes
      requires Valid()
    {
      WordSizes();
      match this
      case Header(filled) => filled
      case Payload(received, length) => BigEndian(length, 4) + received
      case Broken => []
    }
  }

  datatype Outcome = Outcome(state: DecodeState, frames: seq<bytes>, error: Option<FrameError>)

  // ----- reference: one byte at a time

  /** A complete header announces a payload, or breaks the stream. */
  function Announce(length: nat): (r: Outcome)
    ensures r.state.Valid()
  {
    if length == 0 then Outcome(Broken, [], Some(Empty))
    else if length > MAX_FRAME_BYTES then Outcome(Broken, [], Some(Oversized(length, MAX_FRAME_BYTES)))
    else Outcome(Payload([], length), [], None)
  }

  function Step(s: DecodeState, b: byte): (r: Outcome)
    requires s.Valid()
    ensures r.state.Valid()
  {
    match s
    case Broken => Outcome(Broken, [], Some(Poisoned))
    case Header(filled) =>
      if |filled + [b]| < 4 then Outcome(Header(filled + [b]), [], None)
      else Announce(FromBigEndian(filled + [b]))
    case Payload(received, length) =>
      var received := received + [b];
      if |received| < length then Outcome(Payload(received, length), [], None)
      else Outcome(Header([]), [received], None)
  }

  /** Decode a stream up to its end or its first violation. */
  function Decode(s: DecodeState, input: bytes): (r: Outcome)
    requires s.Valid()
    ensures r.state.Valid()
    decreases |input|
  {
    if input == [] then Outcome(s, [], None)
    else
      var first := Step(s, input[0]);
      if first.error.Some? then first
      else
        var rest := Decode(first.state, input[1..]);
        Outcome(rest.state, first.frames + rest.frames, rest.error)
  }

  // ----- chunk independence

  /** Decoding a stream in two chunks is decoding it in one. */
  lemma {:induction false} DecodeSplit(s: DecodeState, a: bytes, b: bytes)
    requires s.Valid()
    ensures Decode(s, a).error.Some? ==> Decode(s, a + b) == Decode(s, a)
    ensures Decode(s, a).error.None? ==>
              Decode(s, a + b).state == Decode(Decode(s, a).state, b).state
    ensures Decode(s, a).error.None? ==>
              Decode(s, a + b).frames == Decode(s, a).frames + Decode(Decode(s, a).state, b).frames
    ensures Decode(s, a).error.None? ==>
              Decode(s, a + b).error == Decode(Decode(s, a).state, b).error
    decreases |a|
  {
    hide Step;
    if a == [] {
      assert a + b == b;
    } else {
      assert (a + b)[0] == a[0] && (a + b)[1..] == a[1..] + b;
      var first := Step(s, a[0]);
      if first.error.None? {
        DecodeSplit(first.state, a[1..], b);
      }
    }
  }

  function Concat(chunks: seq<bytes>): bytes {
    if chunks == [] then [] else chunks[0] + Concat(chunks[1..])
  }

  /** What a caller of `feed` sees: the frames of every call, until a call fails. */
  function FeedAll(s: DecodeState, chunks: seq<bytes>): (r: Outcome)
    requires s.Valid()
    ensures r.state.Valid()
    decreases |chunks|
  {
    if chunks == [] then Outcome(s, [], None)
    else
      var first := Decode(s, chunks[0]);
      if first.error.Some? then Outcome(first.state, [], first.error)
      else
        var rest := FeedAll(first.state, chunks[1..]);
        Outcome(rest.state, first.frames + rest.frames, rest.error)
  }

  /** For any stream, any split into `feed` calls meets the same violation or none, in the same final
      state; without a violation it yields the same frames, and with one a prefix of them. */
  lemma {:induction false} ChunkIndependent(s: DecodeState, chunks: seq<bytes>)
    requires s.Valid()
    ensures FeedAll(s, chunks).error == Decode(s, Concat(chunks)).error
    ensures FeedAll(s, chunks).state == Decode(s, Concat(chunks)).state
    ensures FeedAll(s, chunks).frames <= Decode(s, Concat(chunks)).frames
    ensures Decode(s, Concat(chunks)).error.None? ==> FeedAll(s, chunks).frames == Decode(s, Concat(chunks)).frames
    decreases |chunks|
  {
    if chunks != [] {
      DecodeSplit(s, chunks[0], Concat(chunks[1..]));
      var first := Decode(s, chunks[0]);
      if first.error.None? { ChunkIndependent(first.state, chunks[1..]); }
    }
  }

  // ----- nothing is lost or invented

  predicate Frameable(payloads: seq<bytes>) {
    forall i :: 0 <= i < |payloads| ==> 0 < |payloads[i]| <= MAX_FRAME_BYTES
  }

  function EncodeAll(payloads: seq<bytes>): bytes
    requires Frameable(payloads)
  {
    if payloads == [] then [] else EncodeFrame(payloads[0]).value + EncodeAll(payloads[1..])
  }

  lemma {:induction false} EncodeAllConcat(a: seq<bytes>, b: seq<bytes>)
    requires Frameable(a) && Frameable(b)
    ensures Frameable(a + b) && EncodeAll(a + b) == EncodeAll(a) + EncodeAll(b)
  {
    if a == [] {
      assert a + b == b;
    } else {
      assert (a + b)[0] == a[0] && (a + b)[1..] == a[1..] + b;
      EncodeAllConcat(a[1..], b);
    }
  }

  lemma StepConserves(s: DecodeState, b: byte)
    requires s.Valid() && Step(s, b).error.None?
    ensures Frameable(Step(s, b).frames)
    ensures s.Held() + [b] == EncodeAll(Step(s, b).frames) + Step(s, b).state.Held()
  {
    WordSizes();
    match s
    case Header(filled) =>
      var filled := filled + [b];
      if |filled| == 4 {
        FromBigEndianRoundTrip(filled);
        assert filled == BigEndian(FromBigEndian(filled), 4) + [];
      }
    case Payload(received, length) =>
      var received := received + [b];
      assert s.Held() + [b] == BigEndian(length, 4) + received;
      if |received| == length {
        assert EncodeAll([received]) == EncodeFrame(received).value + [];
      }
  }

  /** Conservation: the bytes held before a feed and the bytes fed are, in order, the encodings of the
      frames emitted and the bytes held after it. */
  lemma {:induction false} DecodeConserves(s: DecodeState, input: bytes)
    requires s.Valid() && Decode(s, input).error.None?
    ensures Frameable(Decode(s, input).frames)
    ensures s.Held() + input == EncodeAll(Decode(s, input).frames) + Decode(s, input).state.Held()
    decreases |input|
  {
    if input == [] {
      assert s.Held() + input == s.Held();
    } else {
      var first := Step(s, input[0]);
      var rest := Decode(first.state, input[1..]);
      StepConserves(s, input[0]);
      DecodeConserves(first.state, input[1..]);
      EncodeAllConcat(first.frames, rest.frames);
      Regroup(s.Held(), input, EncodeAll(first.frames), first.state.Held(), EncodeAll(rest.frames), rest.state.Held());
    }
  }

  lemma Regroup(held: bytes, input: bytes, out0: bytes, held0: bytes, out1: bytes, held1: bytes)
    requires input != [] && held + [input[0]] == out0 + held0 && held0 + input[1..] == out1 + held1
    ensures held + input == out0 + out1 + held1
  {
    assert input == [input[0]] + input[1..];
    assert held + input == (held + [input[0]]) + input[1..];
    assert (out0 + held0) + input[1..] == out0 + (held0 + input[1..]);
    assert out0 + (out1 + held1) == out0 + out1 + held1;
  }

  /** Copying a whole run of header bytes is reading them one by one. */
  lemma {:induction false} DecodeHeaderPart(filled: bytes, part: bytes)
    requires |filled| < 4 && |filled| + |part| <= 4 && part != []
    ensures Decode(Header(filled), part)
         == if |filled| + |part| < 4 then Outcome(Header(filled + part), [], None)
            else Announce(FromBigEndian(filled + part))
    decreases |part|
  {
    var first := Step(Header(filled), part[0]);
    if |part| == 1 {
      assert part == [part[0]];
      assert first.error.None? ==> Decode(first.state, part[1..]) == Outcome(first.state, [], None);
    } else {
      DecodeHeaderPart(filled + [part[0]], part[1..]);
      assert filled + [part[0]] + part[1..] == filled + part;
    }
  }

  /** Copying a whole run of payload bytes is reading them one by one. */
  lemma {:induction false} DecodePayloadPart(received: bytes, length: nat, part: bytes)
    requires |received| < length <= MAX_FRAME_BYTES && |received| + |part| <= length && part != []
    ensures Decode(Payload(received, length), part)
         == if |received| + |part| < length then Outcome(Payload(received + part, length), [], None)
            else Outcome(Header([]), [received + part], None)
    decreases |part|
  {
    var first := Step(Payload(received, length), part[0]);
    if |part| == 1 {
      assert part == [part[0]];
      assert Decode(first.state, part[1..]) == Outcome(first.state, [], None);
    } else {
      DecodePayloadPart(received + [part[0]], length, part[1..]);
      assert received + [part[0]] + part[1..] == received + part;
    }
  }

  lemma DecodeOneFrame(payload: bytes)
    requires 0 < |payload| <= MAX_FRAME_BYTES
    ensures Decode(Header([]), EncodeFrame(payload).value) == Outcome(Header([]), [payload], None)
  {
    WordSizes();
    var header := BigEndian(|payload|, 4);
    BigEndianRoundTrip(|payload|, 4);
    DecodeHeaderPart([], header);
    assert [] + header == header;
    DecodePayloadPart([], |payload|, payload);
    DecodeSplit(Header([]), header, payload);
    assert [] + payload == payload;
  }

  /** Decoding the concatenation of encoded payloads returns exactly those payloads. */
  lemma {:induction false} DecodeInvertsEncode(payloads: seq<bytes>)
    requires Frameable(payloads)
    ensures Decode(Header([]), EncodeAll(payloads)) == Outcome(Header([]), payloads, None)
  {
    if payloads != [] {
      DecodeOneFrame(payloads[0]);
      DecodeInvertsEncode(payloads[1..]);
      DecodeSplit(Header([]), EncodeFrame(payloads[0]).value, EncodeAll(payloads[1..]));
    }
  }

  /** A violation breaks the decoder, whatever state and bytes led to it. */
  lemma {:induction false} ViolationBreaks(s: DecodeState, input: bytes)
    requires s.Valid() && Decode(s, input).error.Some?
    ensures Decode(s, input).state.Broken?
    decreases |input|
  {
    if input != [] && Step(s, input[0]).error.None? { ViolationBreaks(Step(s, input[0]).state, input[1..]); }
  }

  /** After any number of whole frames, a header that announces no byte or more than the maximum is reported as it is,
      with all frames before it, whatever follows. */
  lemma BadHeaderIsReported(payloads: seq<bytes>, length: nat, rest: bytes)
    requires Frameable(payloads) && length < Pow256(4) && (length == 0 || length > 8_388_608)
    ensures Decode(Header([]), EncodeAll(payloads) + BigEndian(length, 4) + rest) ==
              Outcome(Broken, payloads, Some(if length == 0 then Empty else Oversized(length, 8_388_608)))
  {
    var good, header := EncodeAll(payloads), BigEndian(length, 4);
    DecodeInvertsEncode(payloads);
    DecodeSplit(Header([]), good, header);
    BigEndianRoundTrip(length, 4);
    DecodeHeaderPart([], header);
    assert [] + header == header;
    DecodeSplit(Header([]), good + header, rest);
  }

  /** After a violation every further byte is refused. */
  lemma BrokenStaysBroken(input: bytes)
    ensures Decode(Broken, input) == Outcome(Broken, [], if input == [] then None else Some(Poisoned))
  {}

  // ----- the decoder as it runs

  datatype StateKind = HeaderKind | PayloadKind | BrokenKind

  class FrameDecoder {
    var kind: StateKind
    const header: array<byte>
    var filled: nat
    var received: bytes
    var length: nat

    ghost predicate Valid()
      reads this, header
    {
      header.Length == 4 && filled <= 4 && State().Valid()
    }

    ghost function State(): DecodeState
      requires header.Length == 4 && filled <= 4
      reads this, header
    {
      match kind
      case HeaderKind => Header(header[..filled])
      case PayloadKind => Payload(received, length)
      case BrokenKind => Broken
    }

    constructor ()
      ensures Valid() && fresh(header)
      ensures State() == Header([])
    {
      kind, header, filled, received, length := HeaderKind, new byte[4], 0, [], 0;
    }

    /** Each turn copies as many bytes as the current state can take; every turn consumes input. */
    method Feed(input: bytes) returns (r: Result<seq<bytes>, FrameError>)
      requires Valid()
      modifies this, header
      ensures Valid()
      ensures State() == Decode(old(State()), input).state
      ensures r == match Decode(old(State()), input).error
                   case None => Ok(Decode(old(State()), input).frames)
                   case Some(error) => Err(error)
    {
      hide Decode;
      ghost var start := State();
      var complete: seq<bytes> := [];
      var at := 0;
      NothingDecoded(start);
      while at < |input|
        invariant at <= |input| && Valid()
        invariant Decode(start, input[..at]) == Outcome(State(), complete, None)
      {
        ghost var before := State();
        var to, frames, error := Turn(input, at);
        Advance(start, input, at, to, Outcome(before, complete, None), Outcome(State(), frames, error));
        if error.Some? {
          return Err(error.value);
        }
        complete := complete + frames;
        at := to;
      }
      assert input[..at] == input;
      return Ok(complete);
    }

    method Turn(input: bytes, at: nat) returns (to: nat, frames: seq<bytes>, error: Option<FrameError>)
      requires Valid() && at < |input|
      modifies this, header
      ensures Valid() && at < to <= |input|
      ensures Decode(old(State()), input[at..to]) == Outcome(State(), frames, error)
    {
      match kind
      case HeaderKind => to, error := TakeHeader(input, at); frames := [];
      case PayloadKind => to, frames := TakePayload(input, at); error := None;
      case BrokenKind =>
        BrokenStaysBroken(input[at..]);
        return |input|, [], Some(Poisoned);
    }

    /** The bytes go behind those of the header that are already there. */
    method CopyHeader(part: bytes)
      requires header.Length == 4 && filled + |part| <= 4
      modifies header
      ensures header[..filled + |part|] == old(header[..filled]) + part
    {
      for k := 0 to |part|
        invariant header[..filled] == old(header[..filled])
        invariant header[filled..filled + k] == part[..k]
      {
        header[filled + k] := part[k];
      }
      assert header[..filled + |part|] == header[..filled] + header[filled..filled + |part|];
      assert part[..|part|] == part;
    }

    method TakeHeader(input: bytes, at: nat) returns (to: nat, error: Option<FrameError>)
      requires Valid() && kind == HeaderKind && at < |input|
      modifies this, header
      ensures Valid() && at < to <= |input|
      ensures Decode(old(State()), input[at..to]) == Outcome(State(), [], error)
    {
      hide Decode;
      var copied := if 4 - filled < |input| - at then 4 - filled else |input| - at;
      assert State() == Header(header[..filled]);
      ghost var kept := header[..filled];
      CopyHeader(input[at..at + copied]);
      DecodeHeaderPart(kept, input[at..at + copied]);
      filled := filled + copied;
      to := at + copied;
      if filled == 4 {
        assert header[..] == header[..4];
        length := FromBigEndian(header[..]);
        if length == 0 {
          kind := BrokenKind;
          return to, Some(Empty);
        }
        if length > MAX_FRAME_BYTES {
          kind := BrokenKind;
          return to, Some(Oversized(length, MAX_FRAME_BYTES));
        }
        kind, received := PayloadKind, [];
      }
      error := None;
    }

    method TakePayload(input: bytes, at: nat) returns (to: nat, frames: seq<bytes>)
      requires Valid() && kind == PayloadKind && at < |input|
      modifies this
      ensures Valid() && at < to <= |input|
      ensures Decode(old(State()), input[at..to]) == Outcome(State(), frames, None)
    {
      hide Decode;
      var copied := if length - |received| < |input| - at then length - |received| else |input| - at;
      DecodePayloadPart(received, length, input[at..at + copied]);
      received := received + input[at..at + copied];
      to := at + copied;
      frames := [];
      if |received| == length {
        frames := [received];
        kind, filled := HeaderKind, 0;
      }
    }

    /** The bytes of the unfinished frame, without the header once a payload has begun. */
    method BufferedBytes() returns (n: nat)
      requires Valid()
      ensures |State().Held()| == if State().Payload? then 4 + n else n
      ensures n == match State()
                   case Header(filled) => |filled|
                   case Payload(received, _) => |received|
                   case Broken => 0
    {
      match kind
      case HeaderKind => return filled;
      case PayloadKind => return |received|;
      case BrokenKind => return 0;
    }
  }

  lemma NothingDecoded(s: DecodeState)
    requires s.Valid()
    ensures Decode(s, []) == Outcome(s, [], None)
  {}

  /** One loop turn moves the decoded prefix forward, or ends the whole feed with an error. */
  lemma {:induction false} Advance(start: DecodeState, input: bytes, from: nat, to: nat, before: Outcome, turn: Outcome)
    requires start.Valid() && from <= to <= |input|
    requires before == Decode(start, input[..from]) && before.error.None?
    requires turn == Decode(before.state, input[from..to])
    ensures turn.error.None? ==> Decode(start, input[..to]) == Outcome(turn.state, before.frames + turn.frames, None)
    ensures turn.error.Some? ==> Decode(start, input).error == turn.error && Decode(start, input).state == turn.state
  {
    hide Decode;
    assert input[..to] == input[..from] + input[from..to];
    DecodeSplit(start, input[..from], input[from..to]);
    assert input == input[..to] + input[to..];
    DecodeSplit(start, input[..to], input[to..]);
  }
}
