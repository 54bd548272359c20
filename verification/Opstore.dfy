/** The operational store's front half: messages are buffered per key and flushed in batches, while
    new messages keep arriving. */
module Opstore {
  import opened Seqs

  /** The parts of a Common Tactical Object that the operational store acts on; `rest` stands for
      every other column. */
  datatype Cto = Cto(
    uid: nat,
    sourceSystem: string,
    filename: Option<string>,
    kmzSource: Option<string>,
    kmzUri: Option<string>,
    receivedAt: int,
    validTo: Option<int>,
    rest: string)

  datatype Message = Valid(cto: Cto) | Invalid

  const BATCH_WINDOW_MS := 200.0

  /** Python's truth of an optional string. */
  predicate Truthy(s: Option<string>) {
    s.Some? && s.value != ""
  }

  /** How an f-string prints an optional string. */
  function Shown(s: Option<string>): string {
    if s.Some? then s.value else "None"
  }

  function KeyOf(c: Cto): string {
    if Truthy(c.filename) then "kmz:" + Shown(c.filename) + ":" + Shown(c.kmzSource)
    else "stream:" + c.sourceSystem
  }

  // --- Keys determine where a batch belongs ---

  /** What delivery channels are called: no colon, and not the text that stands for a missing one. */
  predicate ChannelName(s: Option<string>) {
    s.Some? ==> ':' !in s.value && s.value != "None"
  }

  /** File names may hold colons: since channel names do not, the last colon of a key still separates the two. */
  lemma {:induction false} KeyDeterminesOrigin(c: Cto, d: Cto)
    requires ChannelName(c.kmzSource) && ChannelName(d.kmzSource)
    requires KeyOf(c) == KeyOf(d)
    ensures Truthy(c.filename) == Truthy(d.filename)
    ensures Truthy(c.filename) ==> c.filename == d.filename && c.kmzSource == d.kmzSource
    ensures !Truthy(c.filename) ==> c.sourceSystem == d.sourceSystem
  {
    var k, l := KeyOf(c), KeyOf(d);
    assert k[0] == l[0];
    if Truthy(c.filename) {
      var f, s := Shown(c.filename), Shown(c.kmzSource);
      var g, t := Shown(d.filename), Shown(d.kmzSource);
      assert k[4..] == f + [':'] + s && l[4..] == g + [':'] + t;
      SplitAtLast(f, s, g, t, ':');
    } else {
      assert c.sourceSystem == k[7..] == l[7..] == d.sourceSystem;
    }
  }

  /** Where objects come from: a file received over some channel, or else a system that streams them. */
  datatype Origin = Overlay(filename: string, channel: Option<string>) | Live(sourceSystem: string)

  predicate ComesFrom(c: Cto, o: Origin) {
    match o
    case Overlay(filename, channel) => filename != "" && c.filename == Some(filename) && c.kmzSource == channel
    case Live(sourceSystem) => c.filename in [None, Some("")] && c.sourceSystem == sourceSystem
  }

  /** Whatever the channels are called, objects of one origin are buffered under one key. */
  lemma {:induction false} OneKeyPerOrigin(o: Origin) returns (key: string)
    ensures forall c | ComesFrom(c, o) :: KeyOf(c) == key
  {
    match o
    case Overlay(filename, channel) =>
      key := KeyOf(Cto(0, "", Some(filename), channel, None, 0, None, ""));
    case Live(sourceSystem) =>
      key := KeyOf(Cto(0, sourceSystem, None, None, None, 0, None, ""));
  }

  /** With well-named channels, two objects share a key exactly if they share an origin. */
  lemma {:induction false} SameKeyIffSameOrigin(c: Cto, d: Cto)
    requires ChannelName(c.kmzSource) && ChannelName(d.kmzSource)
    ensures KeyOf(c) == KeyOf(d) <==> exists o :: ComesFrom(c, o) && ComesFrom(d, o)
  {
    hide KeyOf;
    var o := if Truthy(c.filename) then Overlay(c.filename.value, c.kmzSource) else Live(c.sourceSystem);
    assert ComesFrom(c, o);
    if KeyOf(c) == KeyOf(d) {
      KeyDeterminesOrigin(c, d);
      assert ComesFrom(d, o);
    }
    if o' :| ComesFrom(c, o') && ComesFrom(d, o') {
      var key := OneKeyPerOrigin(o');
      assert KeyOf(c) == key == KeyOf(d);
    }
  }

  /** One text is another behind a colon. */
  predicate EndsInChannel(s: string, t: string) {
    |t| < |s| && s[|s| - |t| - 1..] == ":" + t
  }

  /** Objects of these two channels can have the same buffer key without being of the same overlay. */
  ghost predicate CanMix(s: Option<string>, t: Option<string>) {
    exists c: Cto, d: Cto :: Mixed(c, d, s, t)
  }

  predicate Mixed(c: Cto, d: Cto, s: Option<string>, t: Option<string>) {
    && c.kmzSource == s && d.kmzSource == t && Truthy(c.filename) && Truthy(d.filename)
    && KeyOf(c) == KeyOf(d) && (c.filename, c.kmzSource) != (d.filename, d.kmzSource)
  }

  /** Exactly which channels can share a buffer: different ones that print alike, or of which one ends in a colon and
      the other. */
  lemma {:induction false} ChannelsMixIff(s: Option<string>, t: Option<string>)
    ensures CanMix(s, t) <==>
            s != t && (Shown(s) == Shown(t) || EndsInChannel(Shown(s), Shown(t)) || EndsInChannel(Shown(t), Shown(s)))
  {
    if c, d :| Mixed(c, d, s, t) {
      var f, g := Shown(c.filename), Shown(d.filename);
      assert KeyOf(c)[4..] == f + ":" + Shown(s) && KeyOf(d)[4..] == g + ":" + Shown(t);
      SplitByColon(f, Shown(s), g, Shown(t));
    }
    if s != t {
      if Shown(s) == Shown(t) {
        MixOn("f", s, "f", t);
      } else if EndsInChannel(Shown(s), Shown(t)) {
        MixSuffix(s, t);
      } else if EndsInChannel(Shown(t), Shown(s)) {
        MixSuffix(t, s);
        var c, d :| Mixed(c, d, t, s);
        assert Mixed(d, c, s, t);
      }
    }
  }

  lemma {:induction false} MixOn(f: string, s: Option<string>, g: string, t: Option<string>)
    requires s != t && f != "" && g != "" && "kmz:" + f + ":" + Shown(s) == "kmz:" + g + ":" + Shown(t)
    ensures CanMix(s, t)
  {
    var c := Cto(1, "", Some(f), s, None, 0, None, "");
    var d := Cto(2, "", Some(g), t, None, 0, None, "");
    assert Mixed(c, d, s, t);
  }

  lemma {:induction false} MixSuffix(s: Option<string>, t: Option<string>)
    requires s != t && EndsInChannel(Shown(s), Shown(t))
    ensures CanMix(s, t)
  {
    hide CanMix, Mixed, KeyOf;
    var x := Shown(s)[..|Shown(s)| - |Shown(t)| - 1];
    assert Shown(s) == x + ":" + Shown(t);
    assert "kmz:" + "f" + ":" + Shown(s) == "kmz:" + ("f:" + x) + ":" + Shown(t);
    MixOn("f", s, "f:" + x, t);
  }

  lemma {:induction false} SplitByColon(f: string, s: string, g: string, t: string)
    requires f + ":" + s == g + ":" + t
    ensures s == t ==> f == g
    ensures s == t || EndsInChannel(s, t) || EndsInChannel(t, s)
  {
    var k := f + ":" + s;
    assert s == k[|k| - |s|..] && t == k[|k| - |t|..];
    assert f == k[..|k| - |s| - 1] && g == k[..|k| - |t| - 1];
    assert k[|k| - |s| - 1] == ':' && k[|k| - |t| - 1] == ':';
    if |t| < |s| {
      assert s[|s| - |t| - 1..] == k[|k| - |t| - 1..] == ":" + t;
    } else if |s| < |t| {
      assert t[|t| - |s| - 1..] == k[|k| - |s| - 1..] == ":" + s;
    }
  }

  /** What the gateway writes as a channel, or nothing for an object that came without one. */
  predicate OwnChannel(s: Option<string>) {
    s.Some? ==> s.value in {"folder", "upload", "stream", "other"}
  }

  lemma {:induction false} OwnChannelsNeverMix(s: Option<string>, t: Option<string>)
    requires OwnChannel(s) && OwnChannel(t)
    ensures !CanMix(s, t)
  {
    hide CanMix, EndsInChannel;
    ChannelsMixIff(s, t);
    NoColon(s);
    NoColon(t);
    ColonInEnd(Shown(s), Shown(t));
    ColonInEnd(Shown(t), Shown(s));
  }

  lemma {:induction false} ColonInEnd(s: string, t: string)
    ensures EndsInChannel(s, t) ==> ':' in s
  {
    if EndsInChannel(s, t) {
      assert s[|s| - |t| - 1] == s[|s| - |t| - 1..][0] == ':';
    }
  }

  lemma {:induction false} NoColon(s: Option<string>)
    requires OwnChannel(s)
    ensures ':' !in Shown(s) && (s.Some? ==> Shown(s) != "None")
  {
  }

  // --- The system ---

  datatype Fate = InFlight | Written | Failed | Cancelled

  /** A batch that has been taken out of the buffers, and what became of it. */
  datatype Batch = Batch(key: string, ctos: seq<Cto>, fate: Fate)

  datatype Arrival = Arrival(cto: Cto, at: real)

  /** The counters and buffers of the service, and the history: every valid message in arrival order
      and every batch in the order it was taken. */
  datatype State = State(
    received: nat,
    written: nat,
    failed: nat,
    buffer: map<string, seq<Cto>>,
    startedAt: map<string, real>,
    arrivals: seq<Arrival>,
    invalid: nat,
    batches: seq<Batch>)

  datatype Step =
    | OnMessage(msg: Message, now: real)
    | TakeBatch(key: string)
    | EndBatch(index: nat, ok: bool)
    | CancelBatch(index: nat)

  const INITIAL := State(0, 0, 0, map[], map[], [], 0, [])

  function Receive(s: State, msg: Message, now: real): State {
    match msg
    case Invalid => s.(received := s.received + 1, failed := s.failed + 1, invalid := s.invalid + 1)
    case Valid(cto) =>
      var key := KeyOf(cto);
      var queue := if key in s.buffer then s.buffer[key] else [];
      s.(received := s.received + 1,
         startedAt := if queue == [] then s.startedAt[key := now] else s.startedAt,
         buffer := s.buffer[key := queue + [cto]],
         arrivals := s.arrivals + [Arrival(cto, now)])
  }

  /** The synchronous first half of a flush: both pops. An empty queue ends it there. */
  function Take(s: State, key: string): State {
    var ctos := if key in s.buffer then s.buffer[key] else [];
    s.(buffer := s.buffer - {key},
       startedAt := s.startedAt - {key},
       batches := if ctos == [] then s.batches else s.batches + [Batch(key, ctos, InFlight)])
  }

  /** The second half, after the write has been awaited. */
  function End(s: State, index: nat, ok: bool): State {
    if index < |s.batches| && s.batches[index].fate.InFlight? then
      var b := s.batches[index];
      s.(written := s.written + if ok then |b.ctos| else 0,
         failed := s.failed + if ok then 0 else |b.ctos|,
         batches := s.batches[index := b.(fate := if ok then Written else Failed)])
    else s
  }

  /** The flusher is cancelled while it awaits a write: neither counter moves. */
  function Cancel(s: State, index: nat): State {
    if index < |s.batches| && s.batches[index].fate.InFlight? then
      s.(batches := s.batches[index := s.batches[index].(fate := Cancelled)])
    else s
  }

  function Next(s: State, step: Step): State {
    match step
    case OnMessage(msg, now) => Receive(s, msg, now)
    case TakeBatch(key) => Take(s, key)
    case EndBatch(index, ok) => End(s, index, ok)
    case CancelBatch(index) => Cancel(s, index)
  }

  function Run(steps: seq<Step>): State {
    if steps == [] then INITIAL else Next(Run(steps[..|steps| - 1]), steps[|steps| - 1])
  }

  predicate WindowOver(started: real, now: real) {
    (now - started) * 1000.0 >= BATCH_WINDOW_MS
  }

  /** The keys one pass of the flush loop will flush: queues whose window has run out. */
  function ReadyKeys(s: State, now: real): set<string> {
    set key | key in s.startedAt && WindowOver(s.startedAt[key], now) && key in s.buffer && s.buffer[key] != []
  }

  /** One iteration of a flush loop: which key, what arrives while its write is awaited, and how the write ends. */
  datatype Flush = Flush(key: string, meanwhile: seq<(Message, real)>, ok: bool)

  function ReceiveAll(s: State, messages: seq<(Message, real)>): State {
    if messages == [] then s
    else
      var n := |messages| - 1;
      Receive(ReceiveAll(s, messages[..n]), messages[n].0, messages[n].1)
  }

  /** A whole _flush_one. Nothing is awaited, so nothing arrives, when the queue was empty. */
  function FlushOne(s: State, f: Flush): State {
    var taken := Take(s, f.key);
    if taken.batches == s.batches then taken
    else End(ReceiveAll(taken, f.meanwhile), |s.batches|, f.ok)
  }

  /** A pass of _flush_loop over its ready keys, or _flush_all over all keys. */
  function FlushPass(s: State, flushes: seq<Flush>): State {
    if flushes == [] then s else FlushOne(FlushPass(s, flushes[..|flushes| - 1]), flushes[|flushes| - 1])
  }

  lemma {:induction false} ReceivingKeepsBatches(s: State, messages: seq<(Message, real)>)
    ensures ReceiveAll(s, messages).batches == s.batches
  {
    if messages != [] {
      ReceivingKeepsBatches(s, messages[..|messages| - 1]);
    }
  }

  // --- The service object ---

  class Service {
    var messagesReceived: nat
    var messagesWritten: nat
    var messagesFailed: nat
    var buffer: map<string, seq<Cto>>
    var bufferStartedAt: map<string, real>
    ghost var arrivals: seq<Arrival>
    ghost var invalid: nat
    ghost var batches: seq<Batch>

    constructor ()
      ensures Current() == INITIAL
    {
      messagesReceived, messagesWritten, messagesFailed := 0, 0, 0;
      buffer, bufferStartedAt := map[], map[];
      arrivals, invalid, batches := [], 0, [];
    }

    ghost function Current(): State
      reads this
    {
      State(messagesReceived, messagesWritten, messagesFailed, buffer, bufferStartedAt, arrivals, invalid, batches)
    }

    method HandleMessage(msg: Message, now: real)
      modifies this
      ensures Current() == Receive(old(Current()), msg, now)
    {
      messagesReceived := messagesReceived + 1;
      if msg.Invalid? {
        messagesFailed := messagesFailed + 1;
        invalid := invalid + 1;
        return;
      }
      var key := KeyOf(msg.cto);
      if key !in buffer || buffer[key] == [] {
        bufferStartedAt := bufferStartedAt[key := now];
      }
      if key !in buffer {
        buffer := buffer[key := []];
      }
      buffer := buffer[key := buffer[key] + [msg.cto]];
      arrivals := arrivals + [Arrival(msg.cto, now)];
    }

    /** _flush_one up to the point where the write is awaited. */
    method BeginFlush(key: string) returns (ctos: seq<Cto>)
      modifies this
      ensures Current() == Take(old(Current()), key)
      ensures ctos == if key in old(buffer) then old(buffer)[key] else []
    {
      ctos := if key in buffer then buffer[key] else [];
      buffer := buffer - {key};
      bufferStartedAt := bufferStartedAt - {key};
      if ctos != [] {
        batches := batches + [Batch(key, ctos, InFlight)];
      }
    }

    /** _flush_one after the write. */
    method FinishFlush(ctos: seq<Cto>, ok: bool, ghost index: nat)
      requires index < |batches| && batches[index].ctos == ctos && batches[index].fate.InFlight?
      modifies this
      ensures Current() == End(old(Current()), index, ok)
    {
      if ok {
        messagesWritten := messagesWritten + |ctos|;
      } else {
        messagesFailed := messagesFailed + |ctos|;
      }
      batches := batches[index := batches[index].(fate := if ok then Written else Failed)];
    }

    /** The loop of _flush_all, and of a pass of _flush_loop, with the messages handled during each await. */
    method FlushEach(flushes: seq<Flush>)
      modifies this
      ensures Current() == FlushPass(old(Current()), flushes)
    {
      hide Receive, ReceiveAll;
      for i := 0 to |flushes|
        invariant Current() == FlushPass(old(Current()), flushes[..i])
      {
        assert flushes[..i + 1][..i] == flushes[..i];
        var f := flushes[i];
        ghost var before := Current();
        var ctos := BeginFlush(f.key);
        if ctos != [] {
          HandleMessages(f.meanwhile);
          ReceivingKeepsBatches(Take(before, f.key), f.meanwhile);
          FinishFlush(ctos, f.ok, |before.batches|);
        }
      }
      assert flushes[..|flushes|] == flushes;
    }

    method HandleMessages(messages: seq<(Message, real)>)
      modifies this
      ensures Current() == ReceiveAll(old(Current()), messages)
    {
      hide Receive;
      for i := 0 to |messages|
        invariant Current() == ReceiveAll(old(Current()), messages[..i])
      {
        assert messages[..i + 1][..i] == messages[..i];
        HandleMessage(messages[i].0, messages[i].1);
      }
      assert messages[..|messages|] == messages;
    }

    /** One pass of _flush_loop decides which keys to flush, each once, by going through the start times. */
    method Ready(now: real) returns (keys: seq<string>)
      ensures forall key :: key in keys <==> key in ReadyKeys(Current(), now)
      ensures forall i, j | 0 <= i < j < |keys| :: keys[i] != keys[j]
    {
      hide WindowOver;
      ghost var ready := ReadyKeys(Current(), now);
      keys := [];
      var left := bufferStartedAt.Keys;
      while left != {}
        invariant left <= bufferStartedAt.Keys
        invariant forall key :: key in keys <==> key in ready && key !in left
        invariant forall i, j | 0 <= i < j < |keys| :: keys[i] != keys[j]
        decreases |left|
      {
        var key :| key in left;
        if WindowOver(bufferStartedAt[key], now) && key in buffer && buffer[key] != [] {
          assert key !in keys;
          keys := keys + [key];
        }
        left := left - {key};
      }
    }
  }
}
