/** The TCP listener for concatenated CoT XML events: payloads are cut at the closing tag, and
    whitespace between events is dropped only as far as it has already arrived. */
module CotXmlFraming {
  import opened Listener
  import opened Seqs

  /** b"</event>" */
  const CLOSE_TAG: seq<byte> := [0x3C, 0x2F, 0x65, 0x76, 0x65, 0x6E, 0x74, 0x3E]

  /** `reader.read(4096)`: no read is longer. */
  const READ_SIZE := 4096

  /** Whether the XML library parses the payload and finds an `event` root. */
  type Validator = seq<byte> -> bool

  datatype ReadResult =
    | Event(payload: seq<byte>)
    | EndOfFile
    | Unparsable(payload: seq<byte>)
    | MidEvent

  datatype Status = ClientLeft | TruncatedEvent | ParseFailed(payload: seq<byte>) | HandlerRaised

  datatype Run = Run(payloads: seq<seq<byte>>, status: Status) {
    function After(before: seq<seq<byte>>): Run {
      Run(before + payloads, status)
    }

    lemma {:induction false} AfterAfter(xs: seq<seq<byte>>, ys: seq<seq<byte>>)
      ensures After(ys).After(xs) == After(xs + ys)
    {
      assert xs + (ys + payloads) == (xs + ys) + payloads;
    }
  }

  // --- Bytes ---

  /** Dropped between events. */
  predicate IsGap(b: byte) {
    b == 0x20 || b == 0x09 || b == 0x0D || b == 0x0A
  }

  /** Nothing but spaces, tabs, carriage returns and newlines. */
  predicate AllGap(s: seq<byte>) {
    forall i | 0 <= i < |s| :: s[i] in [0x20, 0x09, 0x0D, 0x0A]
  }

  /** `not s.strip()`: Python also strips vertical tab and form feed. */
  predicate Blank(s: seq<byte>) {
    forall i | 0 <= i < |s| :: s[i] in [0x20, 0x09, 0x0D, 0x0A, 0x0B, 0x0C]
  }

  function SkipGap(s: seq<byte>): (r: seq<byte>)
    ensures |r| <= |s|
  {
    if s != [] && IsGap(s[0]) then SkipGap(s[1..]) else s
  }

  predicate TagAt(s: seq<byte>, i: nat) {
    i + |CLOSE_TAG| <= |s| && s[i..i + |CLOSE_TAG|] == CLOSE_TAG
  }

  function FindFrom(s: seq<byte>, i: nat): (r: Option<nat>)
    ensures r.Some? ==> i <= r.value && TagAt(s, r.value) && forall j | i <= j < r.value :: !TagAt(s, j)
    ensures r.None? ==> forall j | i <= j :: !TagAt(s, j)
    decreases |s| - i
  {
    if i + |CLOSE_TAG| > |s| then None
    else if TagAt(s, i) then Some(i)
    else FindFrom(s, i + 1)
  }

  /** `buf.find(CLOSE_TAG)`: the first occurrence. */
  function Find(s: seq<byte>): (r: Option<nat>)
    ensures r.Some? ==> r.value + |CLOSE_TAG| <= |s|
  {
    FindFrom(s, 0)
  }

  /** The closing tag occurs in p once, at its very end. */
  predicate EndsInOnlyTag(p: seq<byte>) {
    |p| >= |CLOSE_TAG| && Find(p) == Some(|p| - |CLOSE_TAG|)
  }

  // --- Specification of one read and of a connection ---

  datatype Reading = Reading(result: ReadResult, buf: seq<byte>, incoming: seq<seq<byte>>)

  function ReadOne(valid: Validator, buf: seq<byte>, incoming: seq<seq<byte>>): (r: Reading)
    ensures r.result.Event? ==> |r.buf| + |Flatten(r.incoming)| < |buf| + |Flatten(incoming)|
    decreases |incoming|
  {
    match Find(buf)
    case Some(idx) =>
      var end := idx + |CLOSE_TAG|;
      var rest := SkipGap(buf[end..]);
      Reading(if valid(buf[..end]) then Event(buf[..end]) else Unparsable(buf[..end]), rest, incoming)
    case None =>
      if incoming == [] || incoming[0] == [] then
        Reading(if Blank(buf) then EndOfFile else MidEvent, buf, incoming)
      else ReadOne(valid, buf + incoming[0], incoming[1..])
  }

  /** A whole connection: read events until the client leaves, an event is refused, or the handler raises. */
  function Session(valid: Validator, handler: Handler, n: nat, buf: seq<byte>, incoming: seq<seq<byte>>): Run
    decreases |buf| + |Flatten(incoming)|
  {
    var r := ReadOne(valid, buf, incoming);
    match r.result
    case EndOfFile => Run([], ClientLeft)
    case MidEvent => Run([], TruncatedEvent)
    case Unparsable(payload) => Run([], ParseFailed(payload))
    case Event(payload) =>
      if handler(n, payload).Raised? then Run([payload], HandlerRaised)
      else Session(valid, handler, n + 1, r.buf, r.incoming).After([payload])
  }

  // --- The connection object ---

  class Connection {
    const valid: Validator
    const handler: Handler
    const clock: Clock
    const stats: ListenerStats
    /** The counters when the connection was accepted. */
    ghost const base: Totals
    var buf: seq<byte>
    /** The network's future: an empty read, or running out, is end of file. */
    var incoming: seq<seq<byte>>
    var delivered: seq<seq<byte>>

    constructor (valid: Validator, handler: Handler, clock: Clock, stats: ListenerStats, incoming: seq<seq<byte>>)
      ensures this.valid == valid && this.handler == handler && this.clock == clock && this.incoming == incoming
      ensures this.stats == stats && base == stats.Now()
      ensures buf == [] && delivered == [] && stats.Match(base, handler, clock, [], 0)
    {
      this.valid, this.handler, this.clock, this.stats, this.incoming := valid, handler, clock, stats, incoming;
      base := stats.Now();
      buf, delivered := [], [];
    }

    /** Hands one payload over. */
    method Deliver(payload: seq<byte>) returns (outcome: Outcome)
      requires stats.Match(base, handler, clock, delivered, 0)
      modifies this`delivered, stats
      ensures outcome == handler(|old(delivered)|, payload) && delivered == old(delivered) + [payload]
      ensures stats.Match(base, handler, clock, delivered, 0)
    {
      hide Count;
      CountSnoc(handler, Normalized, delivered, payload);
      CountSnoc(handler, Rejected, delivered, payload);
      outcome := handler(|delivered|, payload);
      stats.HandleMessage(outcome, clock(|delivered|));
      delivered := delivered + [payload];
    }

    /** _read_one_xml_event */
    method ReadOneXmlEvent() returns (result: ReadResult)
      modifies this`buf, this`incoming
      ensures Reading(result, buf, incoming) == ReadOne(valid, old(buf), old(incoming))
    {
      while true
        invariant ReadOne(valid, buf, incoming) == ReadOne(valid, old(buf), old(incoming))
        decreases |incoming|
      {
        var idx := Find(buf);
        if idx.Some? {
          var end := idx.value + |CLOSE_TAG|;
          var payload := buf[..end];
          ghost var whole := ReadOne(valid, buf, incoming);
          buf := buf[end..];
          ghost var cut := buf;
          assert whole.buf == SkipGap(cut);
          while buf != [] && IsGap(buf[0])
            invariant SkipGap(buf) == SkipGap(cut) && incoming == whole.incoming
            decreases |buf|
          {
            buf := buf[1..];
          }
          assert SkipGap(buf) == buf;
          assert whole.result == if valid(payload) then Event(payload) else Unparsable(payload);
          return if valid(payload) then Event(payload) else Unparsable(payload);
        }
        if incoming == [] || incoming[0] == [] {
          return if Blank(buf) then EndOfFile else MidEvent;
        }
        buf, incoming := buf + incoming[0], incoming[1..];
      }
    }

    /** _handle_client */
    method HandleClient() returns (status: Status)
      requires stats.Match(base, handler, clock, delivered, 0)
      modifies this, stats
      ensures Run(delivered, status) ==
              Session(valid, handler, |old(delivered)|, old(buf), old(incoming)).After(old(delivered))
      ensures var streamErrors := if status.ParseFailed? || status.TruncatedEvent? then 1 else 0;
              stats.Match(base, handler, clock, delivered, streamErrors)
    {
      hide ReadOne, Flatten, Count;
      ghost var whole := Session(valid, handler, |delivered|, buf, incoming).After(delivered);
      while true
        invariant Session(valid, handler, |delivered|, buf, incoming).After(delivered) == whole
        invariant stats.Match(base, handler, clock, delivered, 0)
        decreases |buf| + |Flatten(incoming)|
      {
        var result := ReadOneXmlEvent();
        match result {
          case EndOfFile =>
            return ClientLeft;
          case MidEvent =>
            stats.parseErrors := stats.parseErrors + 1;
            return TruncatedEvent;
          case Unparsable(payload) =>
            stats.parseErrors := stats.parseErrors + 1;
            return ParseFailed(payload);
          case Event(payload) =>
            Session(valid, handler, |delivered| + 1, buf, incoming).AfterAfter(delivered, [payload]);
            var outcome := Deliver(payload);
            if outcome.Raised? {
              return HandlerRaised;
            }
        }
      }
    }
  }

  // --- What a connection delivers, in terms of the byte stream alone ---

  /** `run` is a reading of the stream x: events end at the first closing tag, and each may have lost leading
      whitespace, as much as one read can hold behind the tag before it. Nothing here refers to how the stream was cut
      up. */
  ghost predicate Reads(valid: Validator, handler: Handler, n: nat, x: seq<byte>, run: Run)
    decreases |x|
  {
    match Find(x)
    case None =>
      run == Run([], if Blank(x) then ClientLeft else TruncatedEvent)
    case Some(i) =>
      exists k | 0 <= k <= i && k < READ_SIZE :: AllGap(x[..k])
              && Takes(valid, handler, n, x[k..i + |CLOSE_TAG|], x[i + |CLOSE_TAG|..], run)
  }

  /** A reading in which the first event, too, starts where the stream does. */
  ghost predicate ReadsHere(valid: Validator, handler: Handler, n: nat, x: seq<byte>, run: Run) {
    match Find(x)
    case None => run == Run([], if Blank(x) then ClientLeft else TruncatedEvent)
    case Some(i) => Takes(valid, handler, n, x[..i + |CLOSE_TAG|], x[i + |CLOSE_TAG|..], run)
  }

  ghost predicate Takes(valid: Validator, handler: Handler, n: nat, p: seq<byte>, rest: seq<byte>, run: Run)
    decreases |rest| + 1
  {
    if !valid(p) then run == Run([], ParseFailed(p))
    else if handler(n, p).Raised? then run == Run([p], HandlerRaised)
    else run.payloads != [] && run.payloads[0] == p
            && Reads(valid, handler, n + 1, rest, Run(run.payloads[1..], run.status))
  }

  // --- Searching ---

  lemma {:induction false} FindFromIs(s: seq<byte>, from: nat, i: nat)
    requires from <= i && TagAt(s, i) && forall j | from <= j < i :: !TagAt(s, j)
    ensures FindFrom(s, from) == Some(i)
    decreases i - from
  {
    if from < i {
      FindFromIs(s, from + 1, i);
    }
  }

  /** An occurrence found in the buffer stays the first one when more bytes arrive. */
  lemma {:induction false} FindExtends(s: seq<byte>, more: seq<byte>)
    requires Find(s).Some?
    ensures Find(s + more) == Find(s)
  {
    var i := Find(s).value;
    forall j: nat | j <= i
      ensures TagAt(s + more, j) == TagAt(s, j)
    {
      assert (s + more)[j..j + |CLOSE_TAG|] == s[j..j + |CLOSE_TAG|];
    }
    FindFromIs(s + more, 0, i);
  }

  /** Whitespace in front only shifts the first occurrence. */
  lemma {:induction false} FindAfterGap(w: seq<byte>, x: seq<byte>)
    requires AllGap(w)
    ensures Find(w + x) == if Find(x).Some? then Some(|w| + Find(x).value) else None
  {
    forall j | 0 <= j && TagAt(w + x, j)
      ensures j >= |w| && TagAt(x, j - |w|)
    {
      assert (w + x)[j] == (w + x)[j..j + |CLOSE_TAG|][0] == 0x3C;
      assert (w + x)[j..j + |CLOSE_TAG|] == x[j - |w|..j - |w| + |CLOSE_TAG|];
    }
    if Find(x).Some? {
      var i := Find(x).value;
      assert (w + x)[|w| + i..|w| + i + |CLOSE_TAG|] == x[i..i + |CLOSE_TAG|];
      FindFromIs(w + x, 0, |w| + i);
    }
  }

  lemma {:induction false} SkipGapSplits(s: seq<byte>) returns (w: seq<byte>)
    ensures s == w + SkipGap(s) && AllGap(w)
    ensures SkipGap(s) == [] || !IsGap(SkipGap(s)[0])
  {
    w := [];
    if s != [] && IsGap(s[0]) {
      w := SkipGapSplits(s[1..]);
      w := [s[0]] + w;
    }
  }

  lemma {:induction false} SkipGapAfter(w: seq<byte>, x: seq<byte>)
    requires AllGap(w)
    ensures SkipGap(w + x) == SkipGap(x)
  {
    if w == [] {
      assert w + x == x;
    } else {
      assert (w + x)[1..] == w[1..] + x;
      SkipGapAfter(w[1..], x);
    }
  }

  // --- Sessions read the stream ---

  /** A stream may be read behind whitespace that was dropped in front of it. */
  lemma {:induction false} ReadsAfterGap(valid: Validator, handler: Handler, n: nat, w: seq<byte>, x: seq<byte>,
      run: Run)
    requires AllGap(w) && |w| < READ_SIZE && ReadsHere(valid, handler, n, x, run)
    ensures Reads(valid, handler, n, w + x, run)
  {
    hide Takes, Find;
    FindAfterGap(w, x);
    match Find(x)
    case None =>
      BlankAfterGap(w, x);
    case Some(i) =>
      var end := i + |CLOSE_TAG|;
      var y := w + x;
      assert y[..|w|] == w;
      assert y[|w|..|w| + end] == x[..end] && y[|w| + end..] == x[end..];
  }

  lemma {:induction false} BlankAfterGap(w: seq<byte>, x: seq<byte>)
    requires AllGap(w)
    ensures Blank(w + x) <==> Blank(x)
  {
    assert forall i | 0 <= i < |x| :: (w + x)[|w| + i] == x[i];
  }

  predicate IsRead(c: seq<byte>) {
    0 < |c| <= READ_SIZE
  }

  /** What stands behind the first closing tag of a buffer came in one read. */
  predicate LooksFresh(buf: seq<byte>) {
    Find(buf).Some? ==> |buf| - (Find(buf).value + |CLOSE_TAG|) < READ_SIZE
  }

  lemma {:induction false} TagInLastRead(buf: seq<byte>, c: seq<byte>)
    requires Find(buf).None? && IsRead(c)
    ensures LooksFresh(buf + c)
  {
    if Find(buf + c).Some? {
      var i := Find(buf + c).value;
      if i + |CLOSE_TAG| <= |buf| {
        assert (buf + c)[i..i + |CLOSE_TAG|] == buf[i..i + |CLOSE_TAG|];
        assert TagAt(buf, i);
        assert false;
      }
    }
  }

  lemma {:induction false} SessionReadsHere(valid: Validator, handler: Handler, n: nat, buf: seq<byte>,
      incoming: seq<seq<byte>>)
    requires LooksFresh(buf) && forall c | c in incoming :: IsRead(c)
    ensures ReadsHere(valid, handler, n, buf + Flatten(incoming), Session(valid, handler, n, buf, incoming))
    decreases |buf| + |Flatten(incoming)|, |incoming|
  {
    hide Find, SkipGap, Blank, Takes, Reads;
    var x := buf + Flatten(incoming);
    match Find(buf)
    case None =>
      if incoming == [] {
        assert x == buf;
      } else {
        assert incoming[0] in incoming && forall c | c in incoming[1..] :: c in incoming;
        assert x == (buf + incoming[0]) + Flatten(incoming[1..]);
        TagInLastRead(buf, incoming[0]);
        SessionReadsHere(valid, handler, n, buf + incoming[0], incoming[1..]);
      }
    case Some(idx) =>
      FindExtends(buf, Flatten(incoming));
      var end := idx + |CLOSE_TAG|;
      var p, after := buf[..end], SkipGap(buf[end..]);
      assert x[..end] == p && x[end..] == buf[end..] + Flatten(incoming);
      var rest := Session(valid, handler, n + 1, after, incoming);
      if valid(p) && !handler(n, p).Raised? {
        SessionReadsHere(valid, handler, n + 1, after, incoming);
        var w := SkipGapSplits(buf[end..]);
        assert x[end..] == w + (after + Flatten(incoming));
        ReadsAfterGap(valid, handler, n + 1, w, after + Flatten(incoming), rest);
      }
      TakesOne(valid, handler, n, p, x[end..], rest);
  }

  /** Reading a stream from its start is one way of reading it. */
  lemma {:induction false} HereReads(valid: Validator, handler: Handler, n: nat, x: seq<byte>, run: Run)
    requires ReadsHere(valid, handler, n, x, run)
    ensures Reads(valid, handler, n, x, run)
  {
    ReadsAfterGap(valid, handler, n, [], x, run);
    assert [] + x == x;
  }

  /** However the stream is cut into reads, the connection produces a reading of it. */
  lemma {:induction false} SessionReads(valid: Validator, handler: Handler, n: nat, buf: seq<byte>,
      incoming: seq<seq<byte>>)
    requires LooksFresh(buf) && forall c | c in incoming :: IsRead(c)
    ensures Reads(valid, handler, n, buf + Flatten(incoming), Session(valid, handler, n, buf, incoming))
    ensures ReadsHere(valid, handler, n, buf + Flatten(incoming), Session(valid, handler, n, buf, incoming))
  {
    hide Reads, ReadsHere, Session, LooksFresh;
    SessionReadsHere(valid, handler, n, buf, incoming);
    HereReads(valid, handler, n, buf + Flatten(incoming), Session(valid, handler, n, buf, incoming));
  }

  lemma {:induction false} EofEndsRead(valid: Validator, buf: seq<byte>, incoming: seq<seq<byte>>)
    ensures var r, r' := ReadOne(valid, buf, incoming), ReadOne(valid, buf, BeforeEof(incoming));
            r'.result == r.result && r'.buf == r.buf && r'.incoming == BeforeEof(r.incoming)
    decreases |incoming|
  {
    hide Find, SkipGap, Blank;
    if incoming != [] && incoming[0] != [] {
      assert BeforeEof(incoming)[0] == incoming[0] && BeforeEof(incoming)[1..] == BeforeEof(incoming[1..]);
      EofEndsRead(valid, buf + incoming[0], incoming[1..]);
    }
  }

  /** An empty read is the end of the stream, whatever might come behind it. */
  lemma {:induction false} EofEnds(valid: Validator, handler: Handler, n: nat, buf: seq<byte>, incoming: seq<seq<byte>>)
    ensures Session(valid, handler, n, buf, incoming) == Session(valid, handler, n, buf, BeforeEof(incoming))
    decreases |buf| + |Flatten(incoming)|
  {
    hide ReadOne;
    EofEndsRead(valid, buf, incoming);
    var r := ReadOne(valid, buf, incoming);
    if r.result.Event? && !handler(n, r.result.payload).Raised? {
      EofEnds(valid, handler, n + 1, r.buf, r.incoming);
    }
  }

  lemma {:induction false} TakesOne(valid: Validator, handler: Handler, n: nat, p: seq<byte>, x: seq<byte>, rest: Run)
    requires valid(p) && !handler(n, p).Raised? ==> Reads(valid, handler, n + 1, x, rest)
    ensures Takes(valid, handler, n, p, x,
                  if !valid(p) then Run([], ParseFailed(p))
                  else if handler(n, p).Raised? then Run([p], HandlerRaised)
                  else rest.After([p]))
  {
    hide Reads;
    assert ([p] + rest.payloads)[1..] == rest.payloads;
  }

  // --- Pieces of the stream ---

  predicate Completed(r: Run) {
    r.status.ClientLeft? || r.status.TruncatedEvent?
  }

  predicate SuffixAfterGap(piece: seq<byte>, p: seq<byte>) {
    |p| <= |piece| < |p| + READ_SIZE && AllGap(piece[..|piece| - |p|]) && piece[|piece| - |p|..] == p
  }

  /** The first payload of a reading: a suffix of the first piece of the stream, behind whitespace only. */
  lemma {:induction false} FirstCut(valid: Validator, h: Handler, n: nat, x: seq<byte>, run: Run) returns (p: seq<byte>)
    requires Reads(valid, h, n, x, run) && Find(x).Some?
    ensures var end := Find(x).value + |CLOSE_TAG|;
            && SuffixAfterGap(x[..end], p) && EndsInOnlyTag(p)
            && SkipGap(p) == SkipGap(x[..end])
            && Takes(valid, h, n, p, x[end..], run)
  {
    hide Find, Takes, EndsInOnlyTag;
    var i := Find(x).value;
    var end := i + |CLOSE_TAG|;
    var k :| 0 <= k <= i && k < READ_SIZE && AllGap(x[..k]) && Takes(valid, h, n, x[k..end], x[end..], run);
    p := x[k..end];
    CutEndsInOnlyTag(x, k);
    assert x[..end] == x[..k] + p && x[..end][..k] == x[..k];
    SkipGapAfter(x[..k], p);
  }

  /** A slice of the stream up to the first closing tag contains it once, at the end. */
  lemma {:induction false} CutEndsInOnlyTag(x: seq<byte>, k: nat)
    requires Find(x).Some? && k <= Find(x).value
    ensures EndsInOnlyTag(x[k..Find(x).value + |CLOSE_TAG|])
  {
    hide TagAt;
    var i := Find(x).value;
    var p := x[k..i + |CLOSE_TAG|];
    forall j: nat | j <= i - k
      ensures TagAt(p, j) == TagAt(x, k + j)
    {
      TagInCut(x, k, i + |CLOSE_TAG|, j);
    }
    FindFromIs(p, 0, i - k);
  }

  lemma {:induction false} TagInCut(x: seq<byte>, k: nat, n: nat, j: nat)
    requires k <= n <= |x| && k + j + |CLOSE_TAG| <= n
    ensures TagAt(x[k..n], j) == TagAt(x, k + j)
  {
    SliceOfSlice(x, k, n, j, j + |CLOSE_TAG|);
  }

  /** Nothing is lost or reordered: the stream is the payloads, each behind whitespace that was
      dropped, and a rest; every payload holds the closing tag once, as its suffix. */
  lemma {:induction false} ReadsTiles(valid: Validator, h: Handler, n: nat, x: seq<byte>, run: Run)
    returns (pieces: seq<seq<byte>>, rest: seq<byte>)
    requires Reads(valid, h, n, x, run)
    ensures x == Flatten(pieces) + rest
    ensures |pieces| == |run.payloads|
    ensures forall i | 0 <= i < |pieces| ::
              SuffixAfterGap(pieces[i], run.payloads[i]) && EndsInOnlyTag(run.payloads[i])
    ensures Completed(run) ==> Find(rest).None? && (run.status.ClientLeft? <==> Blank(rest))
    decreases |x|
  {
    hide Find, EndsInOnlyTag, SuffixAfterGap, SkipGap;
    pieces, rest := [], x;
    if Find(x).Some? {
      var end := Find(x).value + |CLOSE_TAG|;
      var p := FirstCut(valid, h, n, x, run);
      assert x == x[..end] + x[end..];
      if valid(p) {
        if h(n, p).Raised? {
          pieces, rest := [x[..end]], x[end..];
        } else {
          var others;
          others, rest := ReadsTiles(valid, h, n + 1, x[end..], Run(run.payloads[1..], run.status));
          pieces := [x[..end]] + others;
          assert run.payloads == [p] + run.payloads[1..];
        }
      }
    }
  }

  // --- The documented closing tag ---

  /** Whitespace from i on, then `>`. */
  predicate ClosesAt(s: seq<byte>, i: nat)
    decreases |s| - i
  {
    i < |s| && (s[i] == 0x3E || (IsGap(s[i]) && ClosesAt(s, i + 1)))
  }

  /** `</event`, with or without whitespace before `>`. */
  predicate DocumentedTagAt(s: seq<byte>, i: nat) {
    i + 7 <= |s| && s[i..i + 7] == CLOSE_TAG[..7] && ClosesAt(s, i + 7)
  }

  lemma {:induction false} TagIsDocumented(s: seq<byte>, i: nat)
    ensures TagAt(s, i) <==> DocumentedTagAt(s, i) && s[i + 7] == 0x3E
  {
    if i + 8 <= |s| {
      assert s[i..i + 8] == s[i..i + 7] + [s[i + 7]];
      assert CLOSE_TAG == CLOSE_TAG[..7] + [0x3E];
      assert s[i..i + 8][..7] == s[i..i + 7];
    }
  }

  /** The first closing tag, in the sense of the documentation, is the one that is found exactly if nothing stands
      between its name and `>`. */
  lemma {:induction false} FindsDocumentedIff(s: seq<byte>, i: nat)
    requires DocumentedTagAt(s, i) && forall j | 0 <= j < i :: !DocumentedTagAt(s, j)
    ensures Find(s) == Some(i) <==> s[i + 7] == 0x3E
  {
    assert i + 7 < |s|;
    hide TagAt, DocumentedTagAt;
    TagIsDocumented(s, i);
    if s[i + 7] == 0x3E {
      forall j | 0 <= j < i
        ensures !TagAt(s, j)
      {
        TagIsDocumented(s, j);
      }
      FindFromIs(s, 0, i);
    }
  }

  /** A client all of whose closing tags hold whitespace gets no event through, however its bytes arrive. */
  lemma {:induction false} SpacedTagsUnread(valid: Validator, handler: Handler, incoming: seq<seq<byte>>)
    requires forall c | c in incoming :: IsRead(c)
    requires forall i: nat | DocumentedTagAt(Flatten(incoming), i) :: Flatten(incoming)[i + 7] != 0x3E
    ensures Session(valid, handler, 0, [], incoming) ==
            Run([], if Blank(Flatten(incoming)) then ClientLeft else TruncatedEvent)
  {
    hide DocumentedTagAt, Session, Blank;
    var x := Flatten(incoming);
    if Find(x).Some? {
      TagIsDocumented(x, Find(x).value);
      assert false;
    }
    SessionReads(valid, handler, 0, [], incoming);
    assert [] + x == x;
  }

  /** `<event></event >` */
  const SPACED_EVENT: seq<byte> := [
    0x3C, 0x65, 0x76, 0x65, 0x6E, 0x74, 0x3E, 0x3C, 0x2F, 0x65, 0x76, 0x65, 0x6E, 0x74, 0x20, 0x3E]

  /** One documented closing tag, and the connection ends as if cut off in the middle of an event. */
  lemma {:induction false} SpacedEventUnread(valid: Validator, handler: Handler)
    ensures DocumentedTagAt(SPACED_EVENT, 7)
    ensures Session(valid, handler, 0, [], [SPACED_EVENT]) == Run([], TruncatedEvent)
  {
    assert SPACED_EVENT[7..14] == CLOSE_TAG[..7];
    assert ClosesAt(SPACED_EVENT, 15) && ClosesAt(SPACED_EVENT, 14);
    assert Flatten([SPACED_EVENT]) == SPACED_EVENT by {
      assert [SPACED_EVENT][1..] == [] && SPACED_EVENT + Flatten<byte>([]) == SPACED_EVENT;
    }
    forall i: nat | DocumentedTagAt(SPACED_EVENT, i)
      ensures SPACED_EVENT[i + 7] != 0x3E
    {
      assert SPACED_EVENT[i] == SPACED_EVENT[i..i + 7][0] == 0x3C;
      assert SPACED_EVENT[i + 1] == SPACED_EVENT[i..i + 7][1] == 0x2F;
    }
    SpacedTagsUnread(valid, handler, [SPACED_EVENT]);
    assert !IsGap(SPACED_EVENT[0]);
  }
}
