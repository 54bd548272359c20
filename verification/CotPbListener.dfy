/** The TCP listener for framed protobuf messages: one buffer per connection, fed by reads of
    whatever size the network delivers. */
module CotPbListener {
  import opened Bits
  import opened CotPbFraming
  import opened Listener
  import opened Seqs

  datatype Status =
    | Open(buf: seq<byte>)
    | FramingFailed(error: FramingError)
    | HandlerRaised

  /** The payloads handed over, in order, and how the connection stands afterwards. */
  datatype Run = Run(payloads: seq<seq<byte>>, status: Status) {
    /** The same run, after some payloads have already been handed over. */
    function After(before: seq<seq<byte>>): Run {
      Run(before + payloads, status)
    }

    lemma {:induction false} AfterAfter(xs: seq<seq<byte>>, ys: seq<seq<byte>>)
      ensures After(ys).After(xs) == After(xs + ys)
      ensures After([]) == this
    {
      assert xs + (ys + payloads) == (xs + ys) + payloads;
    }
  }

  // --- Specification ---

  /** Decode frames from a fixed buffer until it is incomplete, malformed or the handler raises.
      `n` messages have been handed over before. */
  function Drain(handler: Handler, n: nat, buf: seq<byte>): Run
    decreases |buf|
  {
    match Decode(buf)
    case Incomplete => Run([], Open(buf))
    case Malformed(e) => Run([], FramingFailed(e))
    case Frame(payload, k) =>
      if handler(n, payload).Raised? then Run([payload], HandlerRaised)
      else
        Drain(handler, n + 1, buf[k..]).After([payload])
  }

  /** A whole connection: each read extends the buffer, which is then drained. An empty read is end of file. */
  function Session(handler: Handler, n: nat, buf: seq<byte>, chunks: seq<seq<byte>>): Run
    decreases |chunks|
  {
    if chunks == [] || chunks[0] == [] then Run([], Open(buf))
    else
      var here := Drain(handler, n, buf + chunks[0]);
      if !here.status.Open? then here
      else
        Session(handler, n + |here.payloads|, here.status.buf, chunks[1..]).After(here.payloads)
  }

  // --- The connection object ---

  class Connection {
    const handler: Handler
    const clock: Clock
    const stats: ListenerStats
    /** The counters when the connection was accepted. */
    ghost const base: Totals
    var buf: seq<byte>
    /** Every payload handed to the handler so far. */
    var delivered: seq<seq<byte>>

    constructor (handler: Handler, clock: Clock, stats: ListenerStats)
      ensures this.handler == handler && this.clock == clock && this.stats == stats && base == stats.Now()
      ensures buf == [] && delivered == [] && stats.Match(base, handler, clock, [], 0)
    {
      this.handler, this.clock, this.stats := handler, clock, stats;
      base := stats.Now();
      buf, delivered := [], [];
    }

    /** Hands one payload over. */
    method Deliver(payload: seq<byte>) returns (outcome: Outcome)
      requires stats.Match(base, handler, clock, delivered, 0)
      modifies this`delivered, stats
      ensures outcome == handler(|old(delivered)|, payload) && delivered == old(delivered) + [payload]
      ensures stats.Match(base, handler, clock, delivered, 0)
    {
      hide Count;
      CountSnoc(handler, Normalized, delivered, payload);
      CountSnoc(handler, Rejected, delivered, payload);
      outcome := handler(|delivered|, payload);
      stats.HandleMessage(outcome, clock(|delivered|));
      delivered := delivered + [payload];
    }

    /** The inner loop: decode as many complete frames as the buffer holds. */
    method DrainBuffer() returns (status: Status)
      requires stats.Match(base, handler, clock, delivered, 0)
      modifies this, stats
      ensures Run(delivered, status) == Drain(handler, |old(delivered)|, old(buf)).After(old(delivered))
      ensures status.Open? ==> buf == status.buf
      ensures stats.Match(base, handler, clock, delivered, if status.FramingFailed? then 1 else 0)
    {
      hide Decode, Count;
      ghost var whole := Drain(handler, |delivered|, buf).After(delivered);
      while true
        invariant Drain(handler, |delivered|, buf).After(delivered) == whole
        invariant stats.Match(base, handler, clock, delivered, 0)
        decreases |buf|
      {
        var decoded := TryDecodeFrame(buf);
        match decoded {
          case Malformed(e) =>
            stats.parseErrors := stats.parseErrors + 1;
            return FramingFailed(e);
          case Incomplete =>
            return Open(buf);
          case Frame(payload, consumed) =>
            buf := buf[consumed..];
            Drain(handler, |delivered| + 1, buf).AfterAfter(delivered, [payload]);
            var outcome := Deliver(payload);
            if outcome.Raised? {
              return HandlerRaised;
            }
        }
      }
    }

    /** The connection handler: read, extend the buffer, drain it, until end of file or failure. */
    method HandleClient(chunks: seq<seq<byte>>) returns (status: Status)
      requires stats.Match(base, handler, clock, delivered, 0)
      modifies this, stats
      ensures Run(delivered, status) == Session(handler, |old(delivered)|, old(buf), chunks).After(old(delivered))
      ensures stats.Match(base, handler, clock, delivered, if status.FramingFailed? then 1 else 0)
    {
      hide Drain;
      ghost var whole := Session(handler, |delivered|, buf, chunks).After(delivered);
      var i := 0;
      while i < |chunks| && chunks[i] != []
        invariant 0 <= i <= |chunks|
        invariant Session(handler, |delivered|, buf, chunks[i..]).After(delivered) == whole
        invariant stats.Match(base, handler, clock, delivered, 0)
      {
        buf := buf + chunks[i];
        assert chunks[i..][1..] == chunks[i + 1..];
        ghost var before := delivered;
        ghost var here := Drain(handler, |delivered|, buf);
        status := DrainBuffer();
        Session(handler, |delivered|, buf, chunks[i + 1..]).AfterAfter(before, here.payloads);
        if !status.Open? {
          return;
        }
        i := i + 1;
      }
      status := Open(buf);
    }
  }

  // --- Chunking does not matter ---

  /** Draining early and then draining the leftover together with what follows is draining once. */
  lemma {:induction false} DrainInTwo(handler: Handler, n: nat, buf: seq<byte>, more: seq<byte>)
    ensures var here := Drain(handler, n, buf);
            Drain(handler, n, buf + more) ==
            if here.status.Open? then
              Drain(handler, n + |here.payloads|, here.status.buf + more).After(here.payloads)
            else here
    decreases |buf|
  {
    hide Decode, IsFrameOf;
    var here := Drain(handler, n, buf);
    match Decode(buf)
    case Incomplete =>
      Drain(handler, n, buf + more).AfterAfter([], []);
    case Malformed(_) =>
      DecodeStable(buf, more);
    case Frame(payload, k) =>
      DecodeStable(buf, more);
      assert (buf + more)[k..] == buf[k..] + more;
      assert handler(n, payload).Raised? || here == Drain(handler, n + 1, buf[k..]).After([payload]);
      DrainInTwo(handler, n + 1, buf[k..], more);
      if here.status.Open? {
        Drain(handler, n + |here.payloads|, here.status.buf + more).AfterAfter([payload], here.payloads[1..]);
      }
  }

  /** A session over non-empty reads is one drain of everything that was read. */
  lemma {:induction false} SessionIsDrain(handler: Handler, n: nat, buf: seq<byte>, chunks: seq<seq<byte>>)
    requires Decode(buf).Incomplete?
    requires forall c | c in chunks :: c != []
    ensures Session(handler, n, buf, chunks) == Drain(handler, n, buf + Flatten(chunks))
    decreases |chunks|
  {
    hide Decode, IsFrameOf, Drain;
    if chunks == [] {
      assert buf + Flatten(chunks) == buf;
      DrainIncomplete(handler, n, buf);
    } else {
      assert chunks[0] in chunks;
      var here := Drain(handler, n, buf + chunks[0]);
      assert buf + Flatten(chunks) == (buf + chunks[0]) + Flatten(chunks[1..]);
      DrainInTwo(handler, n, buf + chunks[0], Flatten(chunks[1..]));
      if here.status.Open? {
        LeftoverIncomplete(handler, n, buf + chunks[0]);
        assert forall c | c in chunks[1..] :: c in chunks;
        SessionIsDrain(handler, n + |here.payloads|, here.status.buf, chunks[1..]);
      }
    }
  }

  lemma {:induction false} DrainIncomplete(handler: Handler, n: nat, buf: seq<byte>)
    requires Decode(buf).Incomplete?
    ensures Drain(handler, n, buf) == Run([], Open(buf))
  {
  }

  lemma {:induction false} LeftoverIncomplete(handler: Handler, n: nat, buf: seq<byte>)
    requires Drain(handler, n, buf).status.Open?
    ensures Decode(Drain(handler, n, buf).status.buf).Incomplete?
    decreases |buf|
  {
    if Decode(buf).Frame? {
      LeftoverIncomplete(handler, n + 1, buf[Decode(buf).consumed..]);
    }
  }

  /** Any two ways of cutting a byte stream into non-empty reads deliver the same payloads in the
      same order and end in the same status, leftover buffer included. */
  lemma {:induction false} ChunkingIrrelevant(handler: Handler, xs: seq<seq<byte>>, ys: seq<seq<byte>>)
    requires forall c | c in xs :: c != []
    requires forall c | c in ys :: c != []
    requires Flatten(xs) == Flatten(ys)
    ensures Session(handler, 0, [], xs) == Session(handler, 0, [], ys)
  {
    hide Drain, Session;
    SessionIsDrain(handler, 0, [], xs);
    SessionIsDrain(handler, 0, [], ys);
  }

  // --- What is delivered ---

  function EncodeAll(payloads: seq<seq<byte>>): seq<byte> {
    if payloads == [] then [] else Encode(payloads[0]) + EncodeAll(payloads[1..])
  }

  lemma {:induction false} DrainOneEncoded(handler: Handler, n: nat, payload: seq<byte>, tail: seq<byte>)
    requires |payload| < Pow2(42)
    requires !handler(n, payload).Raised?
    ensures Drain(handler, n, Encode(payload) + tail) == Drain(handler, n + 1, tail).After([payload])
  {
    hide Decode, Encode;
    RoundTrip(payload, tail);
    assert (Encode(payload) + tail)[|Encode(payload)|..] == tail;
  }

  lemma {:induction false} DrainNothing(handler: Handler, n: nat)
    ensures Drain(handler, n, []) == Run([], Open([]))
  {
  }

  lemma {:induction false} DrainEncoded(handler: Handler, n: nat, payloads: seq<seq<byte>>)
    requires forall p | p in payloads :: |p| < Pow2(42)
    requires forall k, p :: !handler(k, p).Raised?
    ensures Drain(handler, n, EncodeAll(payloads)) == Run(payloads, Open([]))
    decreases |payloads|
  {
    hide Drain, Encode;
    if payloads == [] {
      DrainNothing(handler, n);
    } else {
      assert payloads[0] in payloads && forall q | q in payloads[1..] :: q in payloads;
      DrainOneEncoded(handler, n, payloads[0], EncodeAll(payloads[1..]));
      DrainEncoded(handler, n + 1, payloads[1..]);
    }
  }

  /** However the encoded frames are cut up on the wire, exactly their payloads arrive, the empty
      ones included, and nothing is left over. */
  lemma {:induction false} EncodedStreamDelivered(handler: Handler, payloads: seq<seq<byte>>, chunks: seq<seq<byte>>)
    requires forall p | p in payloads :: |p| < Pow2(42)
    requires forall k, p :: !handler(k, p).Raised?
    requires forall c | c in chunks :: c != []
    requires Flatten(chunks) == EncodeAll(payloads)
    ensures Session(handler, 0, [], chunks) == Run(payloads, Open([]))
  {
    hide Drain, Session, EncodeAll;
    SessionIsDrain(handler, 0, [], chunks);
    DrainEncoded(handler, 0, payloads);
    assert [] + Flatten(chunks) == Flatten(chunks);
  }

  /** How a connection stands over what it has delivered: only the last payload can have raised; if none did, the rest
      of the stream decides. */
  ghost predicate Stands(handler: Handler, n: nat, run: Run, rest: seq<byte>) {
    var last := |run.payloads| - 1;
    && (run.status.HandlerRaised? <==> last >= 0 && handler(n + last, run.payloads[last]).Raised?)
    && (forall i | 0 <= i < last :: !handler(n + i, run.payloads[i]).Raised?)
    && (!run.status.HandlerRaised? ==>
          && (forall e :: run.status == FramingFailed(e) <==> Decode(rest) == Malformed(e))
          && (forall buf :: run.status == Open(buf) <==> Decode(rest).Incomplete? && buf == rest))
  }

  /** For any stream at all: the bytes split into one frame per delivered payload, in order, and a rest. The handler
      raised exactly if it did on the last payload; otherwise the rest holds a framing error or is the buffer of an open
      connection, and is no complete frame. */
  lemma {:induction false} DeliveredAreFrames(handler: Handler, n: nat, stream: seq<byte>)
    returns (frames: seq<seq<byte>>, rest: seq<byte>)
    ensures var run := Drain(handler, n, stream);
            && |frames| == |run.payloads|
            && (forall i | 0 <= i < |frames| :: IsFrameOf(frames[i], run.payloads[i]))
            && stream == Flatten(frames) + rest
            && Stands(handler, n, run, rest)
    decreases |stream|
  {
    hide Decode, IsFrameOf, Stands;
    frames, rest := [], stream;
    if !Decode(stream).Frame? {
      StandsAtEnd(handler, n, stream);
    } else {
      var Frame(payload, k) := Decode(stream);
      DecodedIsFrame(stream);
      if handler(n, payload).Raised? {
        StandsRaised(handler, n, payload, stream[k..]);
        frames, rest := [stream[..k]], stream[k..];
        assert Flatten(frames) == stream[..k] by { FlattenOne(stream[..k]); }
      } else {
        var others;
        others, rest := DeliveredAreFrames(handler, n + 1, stream[k..]);
        frames := [stream[..k]] + others;
        assert stream == stream[..k] + stream[k..];
        StandsAfter(handler, n, payload, Drain(handler, n + 1, stream[k..]), rest);
      }
    }
  }

  lemma {:induction false} FlattenOne(x: seq<byte>)
    ensures Flatten([x]) == x
  {
    assert [x][1..] == [] && x + Flatten<byte>([]) == x;
  }

  lemma {:induction false} StandsAtEnd(handler: Handler, n: nat, buf: seq<byte>)
    ensures !Decode(buf).Frame? ==> Stands(handler, n, Drain(handler, n, buf), buf)
  {
    hide Decode;
  }

  lemma {:induction false} StandsRaised(handler: Handler, n: nat, payload: seq<byte>, rest: seq<byte>)
    requires handler(n, payload).Raised?
    ensures Stands(handler, n, Run([payload], HandlerRaised), rest)
  {
    hide Decode;
  }

  lemma {:induction false} StandsAfter(handler: Handler, n: nat, payload: seq<byte>, run: Run, rest: seq<byte>)
    requires !handler(n, payload).Raised? && Stands(handler, n + 1, run, rest)
    ensures Stands(handler, n, run.After([payload]), rest)
  {
    hide Decode;
    var all := run.After([payload]).payloads;
    assert forall i | 0 <= i < |run.payloads| :: all[i + 1] == run.payloads[i];
    forall i | 0 <= i < |all| - 1
      ensures !handler(n + i, all[i]).Raised?
    {
      assert i > 0 ==> all[i] == run.payloads[i - 1] && !handler(n + 1 + (i - 1), run.payloads[i - 1]).Raised?;
    }
  }

  lemma {:induction false} EofEnds(handler: Handler, n: nat, buf: seq<byte>, chunks: seq<seq<byte>>)
    ensures Session(handler, n, buf, chunks) == Session(handler, n, buf, BeforeEof(chunks))
    decreases |chunks|
  {
    hide Drain;
    if chunks != [] && chunks[0] != [] {
      var here := Drain(handler, n, buf + chunks[0]);
      assert BeforeEof(chunks)[0] == chunks[0] && BeforeEof(chunks)[1..] == BeforeEof(chunks[1..]);
      if here.status.Open? {
        EofEnds(handler, n + |here.payloads|, here.status.buf, chunks[1..]);
      }
    }
  }

  /** The same of a whole connection, however its bytes arrive before the end of file. */
  lemma {:induction false} SessionStands(handler: Handler, chunks: seq<seq<byte>>)
    returns (frames: seq<seq<byte>>, rest: seq<byte>)
    ensures var run := Session(handler, 0, [], chunks);
            && |frames| == |run.payloads|
            && (forall i | 0 <= i < |frames| :: IsFrameOf(frames[i], run.payloads[i]))
            && Flatten(BeforeEof(chunks)) == Flatten(frames) + rest
            && Stands(handler, 0, run, rest)
  {
    hide Drain, Session, IsFrameOf, Stands;
    var received := BeforeEof(chunks);
    EofEnds(handler, 0, [], chunks);
    SessionIsDrain(handler, 0, [], received);
    assert [] + Flatten(received) == Flatten(received);
    frames, rest := DeliveredAreFrames(handler, 0, Flatten(received));
  }
}
