/** Two ways of cutting one stream of CoT XML into reads: for which streams, and for which parsers, they are the same to
    the listener. */
module CotXmlCutting {
  import opened CotXmlFraming
  import opened Listener
  import opened Seqs

  // --- When two runs are alike ---

  /** Equal up to leading space, tab, CR and LF. */
  predicate SameUpToGap(p: seq<byte>, q: seq<byte>) {
    SkipGap(p) == SkipGap(q)
  }

  predicate PayloadsAgree(ps: seq<seq<byte>>, qs: seq<seq<byte>>) {
    forall i | 0 <= i < |ps| && i < |qs| :: SameUpToGap(ps[i], qs[i])
  }

  /** Same payloads and same end, up to leading whitespace of the payloads. */
  predicate RunsAgree(r: Run, s: Run) {
    && |r.payloads| == |s.payloads|
    && PayloadsAgree(r.payloads, s.payloads)
    && (r.status == s.status
        || (r.status.ParseFailed? && s.status.ParseFailed? && SameUpToGap(r.status.payload, s.status.payload)))
  }

  lemma {:induction false} AgreeCons(p: seq<byte>, q: seq<byte>, r: Run, s: Run)
    requires SameUpToGap(p, q)
    ensures PayloadsAgree(r.payloads, s.payloads) ==> PayloadsAgree([p] + r.payloads, [q] + s.payloads)
    ensures RunsAgree(r, s) ==> RunsAgree(r.After([p]), s.After([q]))
  {
  }

  // --- Streams that do not mind ---

  /** How much whitespace a piece of the stream starts with. */
  function GapLength(s: seq<byte>): (n: nat)
    ensures n <= |s| && (forall i | 0 <= i < n :: IsGap(s[i])) && (n < |s| ==> !IsGap(s[n]))
  {
    if s != [] && IsGap(s[0]) then 1 + GapLength(s[1..]) else 0
  }

  predicate Passes(valid: Validator, h: Handler, n: nat, p: seq<byte>) {
    valid(p) && !h(n, p).Raised?
  }

  /** The parser, and for what it accepts the handler, decide alike wherever the leading whitespace is cut off. What
      is cut off comes in one read with the end of the tag before it, so it is shorter than a read. */
  predicate CutBlind(valid: Validator, h: Handler, n: nat, piece: seq<byte>) {
    forall k | 0 <= k <= GapLength(piece) && k < READ_SIZE ::
      valid(piece[k..]) == valid(piece) && (valid(piece) ==> h(n, piece[k..]).Raised? == h(n, piece).Raised?)
  }

  /** Event by event behind an earlier one, as far as a connection gets: each piece is decided alike however its leading
      whitespace is cut. */
  predicate Settled(valid: Validator, h: Handler, n: nat, x: seq<byte>)
    decreases |x|
  {
    match Find(x)
    case None => true
    case Some(i) =>
      var end := i + |CLOSE_TAG|;
      CutBlind(valid, h, n, x[..end]) && (Passes(valid, h, n, x[..end]) ==> Settled(valid, h, n + 1, x[end..]))
  }

  /** The same from the second event on: whitespace in front of the first is never dropped. */
  predicate StreamSettled(valid: Validator, h: Handler, x: seq<byte>) {
    match Find(x)
    case None => true
    case Some(i) =>
      var end := i + |CLOSE_TAG|;
      Passes(valid, h, 0, x[..end]) ==> Settled(valid, h, 1, x[end..])
  }

  lemma {:induction false} SuffixIsCut(piece: seq<byte>, p: seq<byte>) returns (k: nat)
    requires SuffixAfterGap(piece, p)
    ensures k <= GapLength(piece) && k < READ_SIZE && p == piece[k..]
  {
    k := |piece| - |p|;
    GapAtLeast(piece, k);
  }

  lemma {:induction false} GapAtLeast(s: seq<byte>, k: nat)
    requires k <= |s| && AllGap(s[..k])
    ensures k <= GapLength(s)
  {
    if k > 0 {
      assert s[..k][0] == s[0] && s[1..][..k - 1] == s[..k][1..];
      GapAtLeast(s[1..], k - 1);
    }
  }

  lemma {:induction false} BlindToSuffix(valid: Validator, h: Handler, n: nat, piece: seq<byte>, p: seq<byte>)
    requires SuffixAfterGap(piece, p) && CutBlind(valid, h, n, piece)
    ensures valid(p) == valid(piece) && (valid(p) ==> h(n, p).Raised? == h(n, piece).Raised?)
  {
    var k := SuffixIsCut(piece, p);
  }

  /** Two readings of one stream: payloads agree as far as both got, and the runs do if neither was cut short or the
      stream does not mind. */
  lemma {:induction false} ReadingsAgree(valid: Validator, h: Handler, n: nat, x: seq<byte>, r: Run, s: Run)
    requires Reads(valid, h, n, x, r) && Reads(valid, h, n, x, s)
    ensures PayloadsAgree(r.payloads, s.payloads)
    ensures (Completed(r) && Completed(s)) || Settled(valid, h, n, x) ==> RunsAgree(r, s)
    decreases |x|
  {
    hide Find, Takes, SkipGap, SuffixAfterGap, CutBlind;
    if Find(x).Some? {
      var end := Find(x).value + |CLOSE_TAG|;
      var p := FirstCut(valid, h, n, x, r);
      var q := FirstCut(valid, h, n, x, s);
      if Settled(valid, h, n, x) {
        BlindToSuffix(valid, h, n, x[..end], p);
        BlindToSuffix(valid, h, n, x[..end], q);
      }
      TakesAgree(valid, h, n, p, q, x[end..], r, s, Settled(valid, h, n, x));
    }
  }

  lemma {:induction false} TakesAgree(valid: Validator, h: Handler, n: nat, p: seq<byte>, q: seq<byte>, rest: seq<byte>,
      r: Run, s: Run, settled: bool)
    requires Takes(valid, h, n, p, rest, r) && Takes(valid, h, n, q, rest, s)
    requires SameUpToGap(p, q)
    requires settled ==>
               && valid(p) == valid(q) && (valid(p) ==> h(n, p).Raised? == h(n, q).Raised?)
               && (Passes(valid, h, n, p) ==> Settled(valid, h, n + 1, rest))
    ensures PayloadsAgree(r.payloads, s.payloads)
    ensures (Completed(r) && Completed(s)) || settled ==> RunsAgree(r, s)
    decreases |rest| + 1
  {
    hide Reads, Settled, SkipGap;
    if Passes(valid, h, n, p) && Passes(valid, h, n, q) {
      var r', s' := Run(r.payloads[1..], r.status), Run(s.payloads[1..], s.status);
      ReadingsAgree(valid, h, n + 1, rest, r', s');
      assert r == r'.After([p]) && s == s'.After([q]);
      AgreeCons(p, q, r', s');
    }
  }

  /** The reads that a stream is cut into. */
  predicate Cuts(chunks: seq<seq<byte>>, x: seq<byte>) {
    Flatten(chunks) == x && forall c | c in chunks :: IsRead(c)
  }

  /** Any two ways of cutting a byte stream into reads: payloads agree up to leading whitespace as far as both
      connections got, and completely if neither was cut short. */
  lemma {:induction false} ChunkingAgrees(valid: Validator, h: Handler, x: seq<byte>, xs: seq<seq<byte>>,
      ys: seq<seq<byte>>)
    requires Cuts(xs, x) && Cuts(ys, x)
    ensures var r, s := Session(valid, h, 0, [], xs), Session(valid, h, 0, [], ys);
            && PayloadsAgree(r.payloads, s.payloads)
            && ((Completed(r) && Completed(s)) || StreamSettled(valid, h, x) ==> RunsAgree(r, s))
  {
    assert LooksFresh([]) by { assert Find([]) == None; }
    hide Session, Reads, RunsAgree, PayloadsAgree, Find, Takes, Settled, LooksFresh;
    SessionReads(valid, h, 0, [], xs);
    SessionReads(valid, h, 0, [], ys);
    assert [] + x == x;
    HereAgrees(valid, h, x, Session(valid, h, 0, [], xs), Session(valid, h, 0, [], ys));
  }

  lemma {:induction false} HereAgrees(valid: Validator, h: Handler, x: seq<byte>, r: Run, s: Run)
    requires ReadsHere(valid, h, 0, x, r) && ReadsHere(valid, h, 0, x, s)
    ensures PayloadsAgree(r.payloads, s.payloads)
    ensures (Completed(r) && Completed(s)) || StreamSettled(valid, h, x) ==> RunsAgree(r, s)
  {
    hide Find, Takes, Settled, SkipGap;
    if Find(x).Some? {
      var end := Find(x).value + |CLOSE_TAG|;
      TakesAgree(valid, h, 0, x[..end], x[..end], x[end..], r, s, StreamSettled(valid, h, x));
    }
  }

  // --- Streams that do mind ---

  lemma {:induction false} LastEvent(valid: Validator, h: Handler, n: nat, p: seq<byte>)
    requires EndsInOnlyTag(p) && !h(n, p).Raised?
    ensures Session(valid, h, n, p, []) == if valid(p) then Run([p], ClientLeft) else Run([], ParseFailed(p))
  {
    assert p[..|p|] == p && SkipGap(p[|p|..]) == [];
    assert Find([]) == None;
    assert Session(valid, h, n + 1, [], []) == Run([], ClientLeft);
  }

  lemma {:induction false} FirstEvent(valid: Validator, h: Handler, n: nat, e: seq<byte>, p: seq<byte>,
      more: seq<seq<byte>>)
    requires EndsInOnlyTag(e) && valid(e) && !h(n, e).Raised?
    ensures ReadOne(valid, e + p, more) == Reading(Event(e), SkipGap(p), more)
    ensures Session(valid, h, n, e + p, more) == Session(valid, h, n + 1, SkipGap(p), more).After([e])
  {
    hide Find;
    FindExtends(e, p);
    assert (e + p)[..|e|] == e && (e + p)[|e|..] == p;
  }

  lemma {:induction false} SkipNothing()
    ensures SkipGap([]) == []
  {
  }

  lemma {:induction false} TagNotEmpty(p: seq<byte>)
    requires EndsInOnlyTag(p)
    ensures p != []
  {
  }

  lemma {:induction false} AllGapSkipped(w: seq<byte>)
    requires AllGap(w)
    ensures SkipGap(w) == []
  {
    SkipNothing();
    SkipGapAfter(w, []);
    assert w + [] == w;
  }

  // --- Cutting where one likes ---

  /** Byte by byte. */
  function Bytes(x: seq<byte>): seq<seq<byte>> {
    if x == [] then [] else [[x[0]]] + Bytes(x[1..])
  }

  /** The first end + k bytes, so that the last k + 1 of them come in one read. */
  function CutAt(x: seq<byte>, end: nat, k: nat): seq<seq<byte>>
    requires 0 < end <= end + k <= |x|
  {
    Bytes(x[..end - 1]) + [x[end - 1..end + k]]
  }

  lemma {:induction false} BytesCut(x: seq<byte>)
    ensures Cuts(Bytes(x), x)
  {
    if x != [] {
      BytesCut(x[1..]);
      FlattenCons([x[0]], Bytes(x[1..]));
      assert x == [x[0]] + x[1..];
    }
  }

  lemma {:induction false} FlattenCons(c: seq<byte>, rest: seq<seq<byte>>)
    ensures Flatten([c] + rest) == c + Flatten(rest)
  {
    assert ([c] + rest)[1..] == rest;
  }

  lemma {:induction false} CutsJoin(xs: seq<seq<byte>>, x: seq<byte>, ys: seq<seq<byte>>, y: seq<byte>)
    requires Cuts(xs, x) && Cuts(ys, y)
    ensures Cuts(xs + ys, x + y)
  {
    FlattenAppend(xs, ys);
  }

  lemma {:induction false} CutAtCuts(x: seq<byte>, end: nat, k: nat, rest: seq<seq<byte>>)
    requires 0 < end <= end + k <= |x| && k < READ_SIZE && Cuts(rest, x[end + k..])
    ensures Cuts(CutAt(x, end, k) + rest, x)
  {
    var c := x[end - 1..end + k];
    BytesCut(x[..end - 1]);
    FlattenCons(c, rest);
    assert Cuts([c] + rest, c + x[end + k..]);
    CutsJoin(Bytes(x[..end - 1]), x[..end - 1], [c] + rest, c + x[end + k..]);
    assert CutAt(x, end, k) + rest == Bytes(x[..end - 1]) + ([c] + rest);
    assert x == x[..end - 1] + (c + x[end + k..]);
  }

  lemma {:induction false} ReadMore(valid: Validator, h: Handler, n: nat, buf: seq<byte>, c: seq<byte>,
      more: seq<seq<byte>>)
    requires c != [] && Find(buf).None?
    ensures Session(valid, h, n, buf, [c] + more) == Session(valid, h, n, buf + c, more)
  {
    hide Find;
    assert ([c] + more)[1..] == more;
  }

  /** As long as no tag is complete, bytes only fill the buffer. */
  lemma {:induction false} FeedBytes(valid: Validator, h: Handler, n: nat, buf: seq<byte>, y: seq<byte>,
      rest: seq<seq<byte>>)
    requires Find(buf + y).None?
    ensures Session(valid, h, n, buf, Bytes(y) + rest) == Session(valid, h, n, buf + y, rest)
    decreases |y|
  {
    hide Find, Session;
    if y == [] {
      assert Bytes(y) + rest == rest && buf + y == buf;
    } else {
      var b := [y[0]];
      assert buf + y == buf + b + y[1..];
      assert Find(buf).None? by {
        if Find(buf).Some? { FindExtends(buf, y); }
      }
      assert Bytes(y) + rest == [b] + (Bytes(y[1..]) + rest);
      ReadMore(valid, h, n, buf, b, Bytes(y[1..]) + rest);
      FeedBytes(valid, h, n, buf + b, y[1..], rest);
    }
  }

  /** The buffer when the tag of the first event is complete. */
  lemma {:induction false} ArriveAt(valid: Validator, h: Handler, n: nat, x: seq<byte>, k: nat, rest: seq<seq<byte>>)
    requires Find(x).Some? && Find(x).value + |CLOSE_TAG| + k <= |x|
    ensures var end := Find(x).value + |CLOSE_TAG|;
            Session(valid, h, n, [], CutAt(x, end, k) + rest) == Session(valid, h, n, x[..end + k], rest)
  {
    hide Find, Session;
    var end := Find(x).value + |CLOSE_TAG|;
    var y, c := x[..end - 1], x[end - 1..end + k];
    assert Find(y).None? by {
      assert x == y + x[end - 1..];
      if Find(y).Some? {
        FindExtends(y, x[end - 1..]);
      }
    }
    assert [] + y == y && CutAt(x, end, k) + rest == Bytes(y) + ([c] + rest) && y + c == x[..end + k];
    FeedBytes(valid, h, n, [], y, [c] + rest);
    ReadMore(valid, h, n, y, c, rest);
  }

  /** A read that ends in the whitespace behind an event which passes leaves the rest of the stream to the next read. */
  lemma {:induction false} CutBehindEvent(valid: Validator, h: Handler, n: nat, x: seq<byte>, k: nat,
      rest: seq<seq<byte>>)
    requires Find(x).Some? && Passes(valid, h, n, x[..Find(x).value + |CLOSE_TAG|])
    requires var end := Find(x).value + |CLOSE_TAG|;
             k <= |x| - end && k < READ_SIZE && AllGap(x[end..][..k]) && Cuts(rest, x[end..][k..])
    ensures var end := Find(x).value + |CLOSE_TAG|;
            && Cuts(CutAt(x, end, k) + rest, x)
            && Session(valid, h, n, [], CutAt(x, end, k) + rest) ==
               Session(valid, h, n + 1, [], rest).After([x[..end]])
  {
    hide Find, Session, ReadOne, SkipGap, CutAt, Cuts;
    var end := Find(x).value + |CLOSE_TAG|;
    var e, w := x[..end], x[end..][..k];
    CutEndsInOnlyTag(x, 0);
    assert x[0..end] == e;
    assert x[..end + k] == e + w && x[end..][k..] == x[end + k..];
    CutAtCuts(x, end, k, rest);
    ArriveAt(valid, h, n, x, k, rest);
    FirstEvent(valid, h, n, e, w, rest);
    AllGapSkipped(w);
  }

  /** What becomes of the first event of a stream that starts with an empty buffer and comes byte by byte. */
  lemma {:induction false} FirstOutcome(valid: Validator, h: Handler, n: nat, x: seq<byte>)
    requires Find(x).Some?
    ensures var end := Find(x).value + |CLOSE_TAG|;
            var p, run := x[..end], Session(valid, h, n, [], CutAt(x, end, 0) + Bytes(x[end..]));
            && Cuts(CutAt(x, end, 0) + Bytes(x[end..]), x)
            && (!valid(p) ==> run == Run([], ParseFailed(p)))
            && (valid(p) && h(n, p).Raised? ==> run == Run([p], HandlerRaised))
            && (Passes(valid, h, n, p) ==> run.payloads != [] && !(|run.payloads| == 1 && run.status.HandlerRaised?))
  {
    hide Find, CutAt, Cuts;
    var end := Find(x).value + |CLOSE_TAG|;
    var p, rest := x[..end], Bytes(x[end..]);
    BytesCut(x[end..]);
    CutAtCuts(x, end, 0, rest);
    ArriveAt(valid, h, n, x, 0, rest);
    CutEndsInOnlyTag(x, 0);
    assert x[0..end] == p && p[..|p|] == p && p[|p|..] == [];
    SkipNothing();
    RaisedHasPayload(valid, h, n + 1, [], rest);
  }

  lemma {:induction false} RaisedHasPayload(valid: Validator, h: Handler, n: nat, buf: seq<byte>,
      incoming: seq<seq<byte>>)
    ensures var run := Session(valid, h, n, buf, incoming);
            run.status.HandlerRaised? ==> run.payloads != []
    decreases |buf| + |Flatten(incoming)|
  {
    hide ReadOne;
    var r := ReadOne(valid, buf, incoming);
    if r.result.Event? && !h(n, r.result.payload).Raised? {
      RaisedHasPayload(valid, h, n + 1, r.buf, r.incoming);
    }
  }

  /** Two suffixes of a stream behind whitespace, and how each is cut, so that the runs differ. */
  ghost predicate Differ(valid: Validator, h: Handler, n: nat, x: seq<byte>, k: nat, xs: seq<seq<byte>>, l: nat,
      ys: seq<seq<byte>>)
  {
    && k <= |x| && k < READ_SIZE && AllGap(x[..k]) && Cuts(xs, x[k..])
    && l <= |x| && l < READ_SIZE && AllGap(x[..l]) && Cuts(ys, x[l..])
    && !RunsAgree(Session(valid, h, n, [], xs), Session(valid, h, n, [], ys))
  }

  /** Behind an event, a stream that is not settled can be cut into different runs. */
  lemma {:induction false} SplitWays(valid: Validator, h: Handler, n: nat, x: seq<byte>)
    returns (k: nat, xs: seq<seq<byte>>, l: nat, ys: seq<seq<byte>>)
    requires !Settled(valid, h, n, x)
    ensures Differ(valid, h, n, x, k, xs, l, ys)
    decreases |x|
  {
    hide Find, Session, CutBlind, GapLength, CutAt, Cuts, RunsAgree;
    var end := Find(x).value + |CLOSE_TAG|;
    if CutBlind(valid, h, n, x[..end]) {
      var i, us, j, vs := SplitWays(valid, h, n + 1, x[end..]);
      k, l := 0, 0;
      xs, ys := CutAt(x, end, i) + us, CutAt(x, end, j) + vs;
      CutBehindEvent(valid, h, n, x, i, us);
      CutBehindEvent(valid, h, n, x, j, vs);
      AgreeTail(x[..end], Session(valid, h, n + 1, [], us), Session(valid, h, n + 1, [], vs));
      assert x[0..] == x;
    } else {
      k := 0;
      l := DecidedCut(valid, h, n, x[..end]);
      xs, ys := FirstPieceDiffers(valid, h, n, x, l);
    }
  }

  lemma {:induction false} DecidedCut(valid: Validator, h: Handler, n: nat, piece: seq<byte>) returns (l: nat)
    requires !CutBlind(valid, h, n, piece)
    ensures l <= |piece| && l < READ_SIZE && AllGap(piece[..l])
    ensures valid(piece[l..]) != valid(piece) || (valid(piece) && h(n, piece[l..]).Raised? != h(n, piece).Raised?)
  {
    l :| 0 <= l <= GapLength(piece) && l < READ_SIZE &&
         !(valid(piece[l..]) == valid(piece) && (valid(piece) ==> h(n, piece[l..]).Raised? == h(n, piece).Raised?));
  }

  lemma {:induction false} FirstPieceDiffers(valid: Validator, h: Handler, n: nat, x: seq<byte>, l: nat)
    returns (xs: seq<seq<byte>>, ys: seq<seq<byte>>)
    requires Find(x).Some?
    requires var piece := x[..Find(x).value + |CLOSE_TAG|];
             && l <= |piece| && l < READ_SIZE && AllGap(piece[..l])
             && (valid(piece[l..]) != valid(piece) || (valid(piece) && h(n, piece[l..]).Raised? != h(n, piece).Raised?))
    ensures Differ(valid, h, n, x, 0, xs, l, ys)
  {
    hide Session, SkipGap, Find, CutAt, Cuts, Bytes;
    var end := Find(x).value + |CLOSE_TAG|;
    var y := x[l..];
    assert x[..l] == x[..end][..l];
    TagBehindGap(x, l);
    assert y[..end - l] == x[..end][l..];
    FirstOutcome(valid, h, n, x);
    FirstOutcome(valid, h, n, y);
    xs, ys := CutAt(x, end, 0) + Bytes(x[end..]), CutAt(y, end - l, 0) + Bytes(y[end - l..]);
    assert x[0..] == x;
  }

  lemma {:induction false} TagBehindGap(x: seq<byte>, l: nat)
    requires Find(x).Some? && l <= |x| && AllGap(x[..l])
    ensures Find(x[l..]).Some? && Find(x).value == l + Find(x[l..]).value
  {
    hide Find;
    assert x == x[..l] + x[l..];
    FindAfterGap(x[..l], x[l..]);
  }

  lemma {:induction false} AgreeTail(p: seq<byte>, r: Run, s: Run)
    ensures RunsAgree(r.After([p]), s.After([p])) ==> RunsAgree(r, s)
  {
    hide SkipGap;
    var a, b := r.After([p]).payloads, s.After([p]).payloads;
    assert forall i | 0 <= i < |r.payloads| :: a[i + 1] == r.payloads[i];
    assert forall i | 0 <= i < |s.payloads| :: b[i + 1] == s.payloads[i];
  }

  /** However a stream is cut, the same events are accepted and the connection ends alike, up to leading whitespace. */
  ghost predicate AllCutsAgree(valid: Validator, h: Handler, x: seq<byte>) {
    forall xs, ys | Cuts(xs, x) && Cuts(ys, x) ::
      RunsAgree(Session(valid, h, 0, [], xs), Session(valid, h, 0, [], ys))
  }

  /** Exactly for which streams the way TCP cuts them up cannot matter: those whose pieces, from the second event on,
      the parser and the handler decide alike wherever their leading whitespace is cut. */
  lemma {:induction false} CuttingHarmlessIff(valid: Validator, h: Handler, x: seq<byte>)
    ensures AllCutsAgree(valid, h, x) <==> StreamSettled(valid, h, x)
  {
    hide Find, Session, Settled, RunsAgree, Cuts;
    if StreamSettled(valid, h, x) {
      forall xs, ys | Cuts(xs, x) && Cuts(ys, x)
        ensures RunsAgree(Session(valid, h, 0, [], xs), Session(valid, h, 0, [], ys))
      {
        ChunkingAgrees(valid, h, x, xs, ys);
      }
    } else {
      var end := Find(x).value + |CLOSE_TAG|;
      var k, us, l, vs := SplitWays(valid, h, 1, x[end..]);
      CutBehindEvent(valid, h, 0, x, k, us);
      CutBehindEvent(valid, h, 0, x, l, vs);
      AgreeTail(x[..end], Session(valid, h, 1, [], us), Session(valid, h, 1, [], vs));
    }
  }

  // --- Parsers that never mind ---

  ghost predicate ValidatorGapBlind(valid: Validator) {
    forall p: seq<byte> :: EndsInOnlyTag(p) ==> valid(p) == valid(SkipGap(p))
  }

  /** Whitespace between two events reaches the second one's payload from any point on, up to the length of a read. */
  lemma {:induction false} TwoEventsCutAnywhere(valid: Validator, h: Handler, e: seq<byte>, p: seq<byte>, k: nat)
    returns (xs: seq<seq<byte>>)
    requires EndsInOnlyTag(e) && valid(e) && EndsInOnlyTag(p)
    requires k <= GapLength(p) && k < READ_SIZE
    requires forall n, q :: !h(n, q).Raised?
    ensures Cuts(xs, e + p)
    ensures Session(valid, h, 0, [], xs) ==
            if valid(p[k..]) then Run([e, p[k..]], ClientLeft) else Run([e], ParseFailed(p[k..]))
  {
    hide Find, Session, ReadOne, SkipGap, CutAt, Cuts, EndsInOnlyTag;
    var q := p[k..];
    TagOfEvent(e);
    FindExtends(e, p);
    var x := e + p;
    assert x[..|e|] == e && x[|e|..] == p;
    var tail := AloneInOrder(valid, h, 1, p, k);
    CutBehindEvent(valid, h, 0, x, k, tail);
    xs := CutAt(x, |e|, k) + tail;
    assert [e] + [q] == [e, q] && [e] + [] == [e];
  }

  lemma {:induction false} TagOfEvent(e: seq<byte>)
    requires EndsInOnlyTag(e)
    ensures Find(e).Some? && Find(e).value + |CLOSE_TAG| == |e|
  {
  }

  /** One event on its own, whose first k bytes of whitespace are gone. */
  lemma {:induction false} AloneInOrder(valid: Validator, h: Handler, n: nat, p: seq<byte>, k: nat)
    returns (xs: seq<seq<byte>>)
    requires EndsInOnlyTag(p) && k <= GapLength(p) && forall n, q :: !h(n, q).Raised?
    ensures Cuts(xs, p[k..])
    ensures Session(valid, h, n, [], xs) ==
            if valid(p[k..]) then Run([p[k..]], ClientLeft) else Run([], ParseFailed(p[k..]))
  {
    hide Find, Session, CutAt, Cuts;
    var q := p[k..];
    GapBeforeTag(p, k);
    CutEndsInOnlyTag(p, k);
    assert p[k..|p|] == q;
    TagOfEvent(q);
    xs := CutAt(q, |q|, 0) + [];
    BytesCut([]);
    assert q[|q| + 0..] == [] && Bytes([]) == [];
    CutAtCuts(q, |q|, 0, []);
    ArriveAt(valid, h, n, q, 0, []);
    assert q[..|q| + 0] == q;
    LastEvent(valid, h, n, q);
  }

  lemma {:induction false} GapBeforeTag(p: seq<byte>, k: nat)
    requires Find(p).Some? && k <= GapLength(p)
    ensures k <= Find(p).value
  {
    TagStartsAt(p);
    GapStops(p, Find(p).value);
  }

  lemma {:induction false} BlindSettles(valid: Validator, h: Handler, n: nat, x: seq<byte>)
    requires ValidatorGapBlind(valid) && forall n, q :: !h(n, q).Raised?
    ensures Settled(valid, h, n, x)
    decreases |x|
  {
    hide Find, GapLength, ValidatorGapBlind, EndsInOnlyTag, SkipGap;
    if Find(x).Some? {
      var end := Find(x).value + |CLOSE_TAG|;
      var piece := x[..end];
      forall k | 0 <= k <= GapLength(piece) && k < READ_SIZE
        ensures valid(piece[k..]) == valid(piece)
      {
        BlindToGap(valid, x, k);
      }
      BlindSettles(valid, h, n + 1, x[end..]);
    }
  }

  lemma {:induction false} GapStops(s: seq<byte>, i: nat)
    requires i < |s| && !IsGap(s[i])
    ensures GapLength(s) <= i
  {
    if i > 0 {
      GapStops(s[1..], i - 1);
    }
  }

  lemma {:induction false} BlindToGap(valid: Validator, x: seq<byte>, k: nat)
    requires ValidatorGapBlind(valid) && Find(x).Some? && k <= GapLength(x[..Find(x).value + |CLOSE_TAG|])
    ensures valid(x[..Find(x).value + |CLOSE_TAG|][k..]) == valid(x[..Find(x).value + |CLOSE_TAG|])
  {
    hide Find, EndsInOnlyTag, AllGap;
    var i := Find(x).value;
    var piece := x[..i + |CLOSE_TAG|];
    assert piece[i] == 0x3C by { TagStartsAt(x); }
    GapStops(piece, i);
    CutEndsInOnlyTag(x, 0);
    CutEndsInOnlyTag(x, k);
    assert x[0..i + |CLOSE_TAG|] == piece && x[k..i + |CLOSE_TAG|] == piece[k..];
    SkipGapAfter(piece[..k], piece[k..]);
    assert piece == piece[..k] + piece[k..];
    assert valid(piece) == valid(SkipGap(piece)) == valid(piece[k..]);
  }

  lemma {:induction false} TagStartsAt(x: seq<byte>)
    requires Find(x).Some?
    ensures x[Find(x).value] == 0x3C
  {
    var i := Find(x).value;
    assert x[i] == x[i..i + |CLOSE_TAG|][0] == CLOSE_TAG[0];
  }

  /** Exactly for which parsers no stream of any client can mind, given a handler that never raises and one acceptable
      event: they must not see leading whitespace. */
  lemma {:induction false} ChunkingIrrelevantIff(valid: Validator, h: Handler, e: seq<byte>)
    requires forall n, q :: !h(n, q).Raised?
    requires EndsInOnlyTag(e) && valid(e)
    ensures (forall x :: AllCutsAgree(valid, h, x)) <==> ValidatorGapBlind(valid)
  {
    hide Session, Find, EndsInOnlyTag, Settled;
    if ValidatorGapBlind(valid) {
      forall x
        ensures AllCutsAgree(valid, h, x)
      {
        CuttingHarmlessIff(valid, h, x);
        if Find(x).Some? {
          BlindSettles(valid, h, 1, x[Find(x).value + |CLOSE_TAG|..]);
        }
      }
    }
    if forall x :: AllCutsAgree(valid, h, x) {
      forall p: seq<byte> | EndsInOnlyTag(p)
        ensures valid(p) == valid(SkipGap(p))
      {
        BlindByteByByte(valid, h, e, p);
      }
    }
  }

  /** However long the whitespace, it can be cut off one byte at a time. */
  lemma {:induction false} BlindByteByByte(valid: Validator, h: Handler, e: seq<byte>, p: seq<byte>)
    requires (forall n, q :: !h(n, q).Raised?) && (forall x :: AllCutsAgree(valid, h, x))
    requires EndsInOnlyTag(e) && valid(e) && EndsInOnlyTag(p)
    ensures valid(p) == valid(SkipGap(p))
    decreases |p|
  {
    hide Session, Find, EndsInOnlyTag, Cuts;
    if p != [] && IsGap(p[0]) {
      var xs := TwoEventsCutAnywhere(valid, h, e, p, 0);
      var ys := TwoEventsCutAnywhere(valid, h, e, p, 1);
      assert p[0..] == p;
      assert AllCutsAgree(valid, h, e + p);
      assert RunsAgree(Session(valid, h, 0, [], xs), Session(valid, h, 0, [], ys));
      ShorterEvent(p);
      BlindByteByByte(valid, h, e, p[1..]);
    }
  }

  lemma {:induction false} ShorterEvent(p: seq<byte>)
    requires EndsInOnlyTag(p) && IsGap(p[0])
    ensures EndsInOnlyTag(p[1..])
  {
    GapBeforeTag(p, 1);
    CutEndsInOnlyTag(p, 1);
    assert p[1..|p|] == p[1..];
  }
}
