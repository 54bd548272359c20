/** Safety of the capture writer over whole runs: every stored manifest verifies and every entry in it
    resolves to its bytes. */
module CaptureRuns {
  import opened Seqs
  import opened HashChain
  import opened Manifest
  import opened Capture

  // --- The invariant ---

  /** The stored manifest of day d holds exactly these entries; a day without entries has no manifest. */
  predicate HasChain(w: World, store: Store, d: Date, entries: seq<ChainEntry>) {
    if entries == [] then ManifestKey(d) !in store
    else ManifestKey(d) in store && store[ManifestKey(d)] == Write(w.codec, entries)
  }

  ghost predicate IsRawKey(key: string, sha: string) {
    exists d: Date, p: string :: key == ObjectKey(d, p, sha)
  }

  ghost predicate NoContentCollision(h: Hashing, contents: set<seq<byte>>) {
    forall a, b | a in contents && b in contents && h.ofBytes(a) == h.ofBytes(b) :: a == b
  }

  /** The entry's object is in the store with the recorded hash, and with the recorded size unless two
      captured contents collide. */
  ghost predicate Resolves(w: World, contents: set<seq<byte>>, store: Store, e: ChainEntry) {
    && |e.sha256| == 64 && IsRawKey(e.objectKey, e.sha256)
    && e.objectKey in store
    && w.hashing.ofBytes(store[e.objectKey]) == e.sha256
    && (NoContentCollision(w.hashing, contents) ==>
          store[e.objectKey] in contents && |store[e.objectKey]| == e.sizeBytes)
  }

  ghost predicate AllResolve(w: World, contents: set<seq<byte>>, store: Store, entries: seq<ChainEntry>) {
    forall e | e in entries :: Resolves(w, contents, store, e)
  }

  ghost predicate GoodChain(w: World, contents: set<seq<byte>>, store: Store, d: Date, entries: seq<ChainEntry>) {
    HasChain(w, store, d, entries) && Linked(w.hashing, entries) && AllResolve(w, contents, store, entries)
  }

  ghost predicate StoreOk(w: World, contents: set<seq<byte>>, store: Store) {
    forall d: Date | RealDate(d) :: exists entries :: GoodChain(w, contents, store, d, entries)
  }

  /** The writer's day, tip and lines agree with the stored manifest of that day. */
  ghost predicate InSync(w: World, store: Store, writer: Writer) {
    exists d: Date, entries: seq<ChainEntry> :: SyncedOn(w, store, writer, d, entries)
  }

  predicate SyncedOn(w: World, store: Store, writer: Writer, d: Date, entries: seq<ChainEntry>) {
    && RealDate(d) && writer.day == Some(DayKey(d))
    && HasChain(w, store, d, entries)
    && writer.tip == Tip(entries) && writer.lines == Lines(w.codec, entries)
  }

  /** What a run keeps. `dirty` says that a manifest put has failed and nothing has reloaded the chain since. */
  ghost predicate Inv(w: World, contents: set<seq<byte>>, s: State, dirty: bool) {
    && StoreOk(w, contents, s.store)
    && (s.writer.day.None? || dirty || InSync(w, s.store, s.writer))
  }

  // --- Frame lemmas ---

  lemma {:induction false} RawPutKeepsChain(w: World, store: Store, raw: seq<byte>, protocol: string, at: Instant,
      fate: Put, d: Date, entries: seq<ChainEntry>)
    requires Sound(w) && HasChain(w, store, d, entries)
    ensures HasChain(w, PutObject(store, ObjectKey(at.date, protocol, w.hashing.ofBytes(raw)), raw, fate), d, entries)
  {
    hide ObjectKey, ManifestKey, Write;
    var sha := w.hashing.ofBytes(raw);
    RawKeys(at.date, protocol, sha, d, "", sha);
  }

  lemma {:induction false} RawPutKeepsResolving(w: World, contents: set<seq<byte>>, store: Store, raw: seq<byte>,
      protocol: string, at: Instant, fate: Put, e: ChainEntry)
    requires Sound(w) && raw in contents && Resolves(w, contents, store, e)
    ensures Resolves(w, contents, PutObject(store, ObjectKey(at.date, protocol, w.hashing.ofBytes(raw)), raw, fate), e)
  {
    hide ObjectKey, ManifestKey;
    var sha := w.hashing.ofBytes(raw);
    var d, p :| e.objectKey == ObjectKey(d, p, e.sha256);
    RawKeys(at.date, protocol, sha, d, p, e.sha256);
  }

  lemma {:induction false} ManifestPutKeepsResolving(w: World, contents: set<seq<byte>>, store: Store, d: Date,
      body: seq<byte>, fate: Put, e: ChainEntry)
    requires Resolves(w, contents, store, e)
    ensures Resolves(w, contents, PutObject(store, ManifestKey(d), body, fate), e)
  {
    hide ObjectKey, ManifestKey;
    var c, p :| e.objectKey == ObjectKey(c, p, e.sha256);
    RawKeys(c, p, e.sha256, d, "", e.sha256);
  }

  /** A raw put leaves a good store good. */
  lemma {:induction false} RawPutKeepsStore(w: World, contents: set<seq<byte>>, store: Store, raw: seq<byte>,
      protocol: string, at: Instant, fate: Put)
    requires Sound(w) && raw in contents && StoreOk(w, contents, store)
    ensures StoreOk(w, contents, PutObject(store, ObjectKey(at.date, protocol, w.hashing.ofBytes(raw)), raw, fate))
  {
    hide ObjectKey, PutObject, HasChain, Linked, Resolves, RealDate;
    var store' := PutObject(store, ObjectKey(at.date, protocol, w.hashing.ofBytes(raw)), raw, fate);
    forall d: Date | RealDate(d)
      ensures exists entries :: GoodChain(w, contents, store', d, entries)
    {
      var entries :| GoodChain(w, contents, store, d, entries);
      RawPutKeepsChain(w, store, raw, protocol, at, fate, d, entries);
      forall e | e in entries
        ensures Resolves(w, contents, store', e)
      {
        RawPutKeepsResolving(w, contents, store, raw, protocol, at, fate, e);
      }
      assert GoodChain(w, contents, store', d, entries);
    }
  }

  /** Replacing one day's manifest by a good chain leaves a good store good. */
  lemma {:induction false} ManifestPutKeepsStore(w: World, contents: set<seq<byte>>, store: Store, d: Date,
      entries: seq<ChainEntry>, fate: Put)
    requires RealDate(d) && StoreOk(w, contents, store)
    requires entries != [] && Linked(w.hashing, entries) && AllResolve(w, contents, store, entries)
    ensures StoreOk(w, contents, PutObject(store, ManifestKey(d), Write(w.codec, entries), fate))
  {
    hide ManifestKey, Linked, Resolves, RealDate, Write;
    var store' := PutObject(store, ManifestKey(d), Write(w.codec, entries), fate);
    forall c: Date | RealDate(c)
      ensures exists es :: GoodChain(w, contents, store', c, es)
    {
      var es :| GoodChain(w, contents, store, c, es);
      var es' := if c == d && !fate.Lost? then entries else es;
      forall e | e in es'
        ensures Resolves(w, contents, store', e)
      {
        ManifestPutKeepsResolving(w, contents, store, d, Write(w.codec, entries), fate, e);
      }
      if c != d && ManifestKey(c) == ManifestKey(d) {
        ManifestKeyInjective(c, d);
      }
      assert GoodChain(w, contents, store', c, es');
    }
  }

  // --- One capture ---

  lemma {:induction false} DayKeyInjective(d: Date, e: Date)
    requires RealDate(d) && RealDate(e) && DayKey(d) == DayKey(e)
    ensures d == e
  {
    DateTextInjective(d, e, '-');
  }

  lemma {:induction false} ChainUnique(w: World, store: Store, d: Date, a: seq<ChainEntry>, b: seq<ChainEntry>)
    requires Sound(w) && HasChain(w, store, d, a) && HasChain(w, store, d, b)
    ensures a == b
  {
    hide Write;
    if a != [] && b != [] {
      WriteInjective(w.codec, a, b);
    }
  }

  /** After rolling to the day of a capture the writer agrees with that day's stored, good chain. */
  lemma {:induction false} RollInSync(w: World, contents: set<seq<byte>>, s: State, d: Date, readOk: bool)
    returns (entries: seq<ChainEntry>)
    requires Sound(w) && RealDate(d) && StoreOk(w, contents, s.store)
    requires s.writer.day == Some(DayKey(d)) ==> InSync(w, s.store, s.writer)
    requires readOk || s.writer.day == Some(DayKey(d))
    ensures Roll(w, s, d, readOk).1 == None
    ensures SyncedOn(w, s.store, Roll(w, s, d, readOk).0, d, entries)
    ensures GoodChain(w, contents, s.store, d, entries)
  {
    hide ManifestKey, DayKey, RealDate, Write, Linked, AllResolve, Body, SplitLines;
    entries :| GoodChain(w, contents, s.store, d, entries);
    if s.writer.day == Some(DayKey(d)) {
      var c, es :| SyncedOn(w, s.store, s.writer, c, es);
      DayKeyInjective(c, d);
      ChainUnique(w, s.store, d, entries, es);
    } else if entries != [] {
      ReadWritten(w.codec, entries);
      var lines := Lines(w.codec, entries);
      assert w.codec.fromJsonl(lines[|lines| - 1]) == Some(entries[|entries| - 1]);
    }
  }

  /** The new entry continues the chain and resolves once its object is written. */
  lemma {:induction false} NewEntryGood(w: World, contents: set<seq<byte>>, store: Store, entries: seq<ChainEntry>,
      raw: seq<byte>, protocol: string, at: Instant)
    requires Sound(w) && raw in contents
    requires Linked(w.hashing, entries) && AllResolve(w, contents, store, entries)
    ensures var e := NewEntry(w, Tip(entries), raw, protocol, at);
            && Linked(w.hashing, entries + [e])
            && AllResolve(w, contents, PutObject(store, e.objectKey, raw, Stored), entries + [e])
  {
    hide ObjectKey, Linked, HashInput;
    var e := NewEntry(w, Tip(entries), raw, protocol, at);
    LinkedSnoc(w.hashing, entries, e);
    var store' := PutObject(store, e.objectKey, raw, Stored);
    forall x | x in entries + [e]
      ensures Resolves(w, contents, store', x)
    {
      if x in entries {
        RawPutKeepsResolving(w, contents, store, raw, protocol, at, Stored, x);
      } else {
        assert IsRawKey(e.objectKey, e.sha256);
      }
    }
  }

  lemma {:induction false} LinesSnoc(c: Codec, entries: seq<ChainEntry>, e: ChainEntry)
    ensures Lines(c, entries + [e]) == Lines(c, entries) + [c.toJsonl(e)]
  {
    assert (entries + [e])[..|entries|] == entries;
  }

  /** Whether a manifest put has failed and the chain has been neither reloaded nor captured onto since. */
  function DirtyAfter(s: State, dirty: bool, at: Instant, outcome: Outcome): bool {
    match outcome
    case ManifestPutFailed => true
    case Captured(_) => false
    case ReadFailed => dirty
    case Unreadable => dirty
    case _ => dirty && s.writer.day == Some(DayKey(at.date))
  }

  /** The capture is on the day whose manifest put failed. */
  predicate OnPendingDay(s: State, dirty: bool, at: Instant) {
    dirty && s.writer.day == Some(DayKey(at.date))
  }

  /** A manifest put takes effect on top of a pending line. */
  predicate Breaks(s: State, dirty: bool, at: Instant, io: Io) {
    OnPendingDay(s, dirty, at) && io.rawPut.Stored? && !io.manifestPut.Lost?
  }

  /** On a pending day a capture whose manifest put does not take effect changes at most its raw object. */
  lemma {:induction false} PendingHarmless(w: World, s: State, dirty: bool, raw: seq<byte>, protocol: string,
      at: Instant, io: Io)
    requires OnPendingDay(s, dirty, at) && !Breaks(s, dirty, at, io)
    ensures var (s', outcome) := CaptureStep(w, s, raw, protocol, at, io);
            && s'.store == PutObject(s.store, ObjectKey(at.date, protocol, w.hashing.ofBytes(raw)), raw, io.rawPut)
            && (outcome.RawPutFailed? || (outcome.ManifestPutFailed? && io.manifestPut.Lost?))
            && DirtyAfter(s, dirty, at, outcome)
  {
  }

  /** One capture, unless its manifest put takes effect on a pending day. */
  lemma {:induction false} CaptureKeepsInv(w: World, contents: set<seq<byte>>, s: State, dirty: bool, raw: seq<byte>,
      protocol: string, at: Instant, io: Io)
    requires Sound(w) && raw in contents && Inv(w, contents, s, dirty)
    requires !Breaks(s, dirty, at, io)
    ensures var (s', outcome) := CaptureStep(w, s, raw, protocol, at, io);
            && Inv(w, contents, s', DirtyAfter(s, dirty, at, outcome))
            && outcome != Unreadable
  {
    hide ManifestKey, DayKey, ObjectKey, RealDate, Write, Linked, AllResolve, StoreOk, HasChain, Roll, NewEntry,
         HexDigests, Faithful;
    var d := at.date;
    if OnPendingDay(s, dirty, at) {
      PendingHarmless(w, s, dirty, raw, protocol, at, io);
      RawPutKeepsStore(w, contents, s.store, raw, protocol, at, io.rawPut);
      return;
    }
    if s.writer.day != Some(DayKey(d)) && !io.readOk {
      RollUnread(w, s, d);
      return;
    }
    var entries := RollInSync(w, contents, s, d, io.readOk);
    var writer := Roll(w, s, d, io.readOk).0;
    var e := NewEntry(w, writer.tip, raw, protocol, at);
    assert e.objectKey == ObjectKey(d, protocol, w.hashing.ofBytes(raw)) by {
      NewEntryKey(w, writer.tip, raw, protocol, at);
    }
    var store1 := PutObject(s.store, e.objectKey, raw, io.rawPut);
    RawPutKeepsStore(w, contents, s.store, raw, protocol, at, io.rawPut);
    RawPutKeepsChain(w, s.store, raw, protocol, at, io.rawPut, d, entries);
    assert SyncedOn(w, store1, writer, d, entries);
    if io.rawPut.Stored? {
      assert Linked(w.hashing, entries) && AllResolve(w, contents, s.store, entries);
      NewEntryGood(w, contents, s.store, entries, raw, protocol, at);
      LinesSnoc(w.codec, entries, e);
      var all := entries + [e];
      ManifestPutKeepsStore(w, contents, store1, d, all, io.manifestPut);
      var store2 := PutObject(store1, ManifestKey(d), Write(w.codec, all), io.manifestPut);
      assert Write(w.codec, all) == w.codec.encode(Body(writer.lines + [w.codec.toJsonl(e)])) by {
        WriteIs(w.codec, all);
      }
      if io.manifestPut.Stored? {
        assert HasChain(w, store2, d, all) by { StoredChain(w, store1, d, all); }
        assert SyncedOn(w, store2, Writer(writer.day, e.entryHash, Lines(w.codec, all)), d, all);
      }
    }
  }

  /** How a capture ends, by what the store lets happen: the manifest of another day must be read, then both objects
      must be put. A capture that succeeds returns what it captured, continuing the chain of its day. */
  lemma {:induction false} OutcomeIs(w: World, contents: set<seq<byte>>, s: State, dirty: bool, raw: seq<byte>,
      protocol: string, at: Instant, io: Io)
    requires Sound(w) && raw in contents && Inv(w, contents, s, dirty)
    ensures var outcome := CaptureStep(w, s, raw, protocol, at, io).1;
            var unread := s.writer.day != Some(DayKey(at.date)) && !io.readOk;
            && (outcome.ReadFailed? <==> unread)
            && (outcome.RawPutFailed? <==> !unread && !io.rawPut.Stored?)
            && (outcome.ManifestPutFailed? <==> !unread && io.rawPut.Stored? && !io.manifestPut.Stored?)
            && (outcome.Captured? <==> !unread && io.rawPut.Stored? && io.manifestPut.Stored?)
            && (outcome.Captured? ==> Records(w, outcome.entry, Event.Capture(raw, protocol, at, io)))
    ensures var s' := CaptureStep(w, s, raw, protocol, at, io).0;
            var key := ObjectKey(at.date, protocol, w.hashing.ofBytes(raw));
            (s.writer.day == Some(DayKey(at.date)) || io.readOk) && !io.rawPut.Lost? ==>
              key in s'.store && s'.store[key] == raw
  {
    hide ManifestKey, DayKey, ObjectKey, Inv, Sound, Write;
    if !Breaks(s, dirty, at, io) {
      CaptureKeepsInv(w, contents, s, dirty, raw, protocol, at, io);
    }
    RawKeyMissesManifest(w, at.date, protocol, raw);
  }

  lemma {:induction false} RawKeyMissesManifest(w: World, d: Date, protocol: string, raw: seq<byte>)
    requires Sound(w)
    ensures ObjectKey(d, protocol, w.hashing.ofBytes(raw)) != ManifestKey(d)
  {
    hide ObjectKey, ManifestKey;
    var sha := w.hashing.ofBytes(raw);
    RawKeys(d, protocol, sha, d, "", sha);
  }

  lemma {:induction false} RollUnread(w: World, s: State, d: Date)
    requires s.writer.day != Some(DayKey(d))
    ensures Roll(w, s, d, false) == (s.writer, Some(ReadFailed))
  {
  }

  lemma {:induction false} NewEntryKey(w: World, tip: string, raw: seq<byte>, protocol: string, at: Instant)
    ensures NewEntry(w, tip, raw, protocol, at).objectKey == ObjectKey(at.date, protocol, w.hashing.ofBytes(raw))
  {
  }

  lemma {:induction false} WriteIs(c: Codec, entries: seq<ChainEntry>)
    ensures Write(c, entries) == c.encode(Body(Lines(c, entries)))
  {
  }

  lemma {:induction false} StoredChain(w: World, store: Store, d: Date, entries: seq<ChainEntry>)
    requires entries != []
    ensures HasChain(w, PutObject(store, ManifestKey(d), Write(w.codec, entries), Stored), d, entries)
  {
  }

  /** The entry a capture adds to the manifest of day c: one if its manifest put took effect, else none. */
  function Added(w: World, s: State, c: Date, raw: seq<byte>, protocol: string, at: Instant, io: Io): seq<ChainEntry> {
    var outcome := CaptureStep(w, s, raw, protocol, at, io).1;
    if c == at.date && (outcome.Captured? || (outcome.ManifestPutFailed? && io.manifestPut.StoredThenFailed?))
    then [NewEntry(w, Roll(w, s, at.date, io.readOk).0.tip, raw, protocol, at)]
    else []
  }

  /** One capture appends exactly that entry, and touches no other day. */
  lemma {:induction false} CaptureAppends(w: World, contents: set<seq<byte>>, s: State, dirty: bool, raw: seq<byte>,
      protocol: string, at: Instant, io: Io, c: Date, es: seq<ChainEntry>)
    requires Sound(w) && raw in contents && Inv(w, contents, s, dirty)
    requires !Breaks(s, dirty, at, io)
    requires RealDate(c) && HasChain(w, s.store, c, es)
    ensures HasChain(w, CaptureStep(w, s, raw, protocol, at, io).0.store, c, es + Added(w, s, c, raw, protocol, at, io))
  {
    hide ManifestKey, DayKey, ObjectKey, RealDate, Write, Linked, AllResolve, StoreOk, Roll, NewEntry, HexDigests,
         Faithful, HasChain;
    var d := at.date;
    assert es + [] == es;
    if OnPendingDay(s, dirty, at) {
      PendingHarmless(w, s, dirty, raw, protocol, at, io);
      RawPutKeepsChain(w, s.store, raw, protocol, at, io.rawPut, c, es);
      return;
    }
    if s.writer.day != Some(DayKey(d)) && !io.readOk {
      RollUnread(w, s, d);
      return;
    }
    var entries := RollInSync(w, contents, s, d, io.readOk);
    var writer := Roll(w, s, d, io.readOk).0;
    var e := NewEntry(w, writer.tip, raw, protocol, at);
    NewEntryKey(w, writer.tip, raw, protocol, at);
    RawPutKeepsChain(w, s.store, raw, protocol, at, io.rawPut, c, es);
    if io.rawPut.Stored? {
      var store1 := PutObject(s.store, e.objectKey, raw, io.rawPut);
      var all := entries + [e];
      LinesSnoc(w.codec, entries, e);
      WriteIs(w.codec, all);
      if c == d {
        ChainUnique(w, s.store, d, entries, es);
        if !io.manifestPut.Lost? {
          StoredChain(w, store1, d, all);
        }
      } else {
        OtherDayKept(w, store1, d, all, io.manifestPut, c, es);
      }
    }
  }

  lemma {:induction false} OtherDayKept(w: World, store: Store, d: Date, all: seq<ChainEntry>, fate: Put, c: Date,
      es: seq<ChainEntry>)
    requires RealDate(c) && RealDate(d) && c != d && HasChain(w, store, c, es)
    ensures HasChain(w, PutObject(store, ManifestKey(d), Write(w.codec, all), fate), c, es)
  {
    hide ManifestKey, Write;
    if ManifestKey(c) == ManifestKey(d) {
      ManifestKeyInjective(c, d);
    }
  }

  // --- Runs ---

  datatype Event =
    | Capture(raw: seq<byte>, protocol: string, at: Instant, io: Io)
    | Restart

  /** The state after a run from an empty store, and whether a failed manifest put is still pending. */
  function Run(w: World, events: seq<Event>): (State, bool) {
    if events == [] then (State(map[], FRESH_WRITER), false)
    else
      var (s, dirty) := Run(w, events[..|events| - 1]);
      match events[|events| - 1]
      case Restart => (State(s.store, FRESH_WRITER), false)
      case Capture(raw, protocol, at, io) =>
        var (s', outcome) := CaptureStep(w, s, raw, protocol, at, io);
        (s', DirtyAfter(s, dirty, at, outcome))
  }

  /** After a failed manifest put no manifest put takes effect on that day before the chain has been reloaded, by a
      restart or through a capture on another day. */
  predicate Careful(w: World, events: seq<Event>) {
    events == [] ||
    var before := events[..|events| - 1];
    var last := events[|events| - 1];
    && Careful(w, before)
    && (last.Capture? ==> !Breaks(Run(w, before).0, Run(w, before).1, last.at, last.io))
  }

  function Contents(events: seq<Event>): set<seq<byte>> {
    set ev | ev in events && ev.Capture? :: ev.raw
  }

  /** The entries whose manifest put took effect, for one day, in order. */
  function Ledger(w: World, events: seq<Event>, d: Date): seq<ChainEntry> {
    if events == [] then []
    else
      var before := events[..|events| - 1];
      Ledger(w, before, d) +
      match events[|events| - 1]
      case Restart => []
      case Capture(raw, protocol, at, io) => Added(w, Run(w, before).0, d, raw, protocol, at, io)
  }

  /** The captures whose manifest put took effect on the manifest of day d, in order. */
  function Effective(w: World, events: seq<Event>, d: Date): (captures: seq<Event>)
    ensures forall c | c in captures :: c.Capture? && c in events
  {
    if events == [] then []
    else
      var before := events[..|events| - 1];
      var last := events[|events| - 1];
      Effective(w, before, d) +
      if last.Capture? && Added(w, Run(w, before).0, d, last.raw, last.protocol, last.at, last.io) != []
      then [last] else []
  }

  predicate Records(w: World, e: ChainEntry, ev: Event)
    requires ev.Capture?
  {
    && e.sha256 == w.hashing.ofBytes(ev.raw) && e.sizeBytes == |ev.raw|
    && e.capturedAt == ev.at && e.protocol == ev.protocol
    && e.objectKey == ObjectKey(ev.at.date, ev.protocol, e.sha256)
  }

  /** A day's ledger has one entry for each capture that took effect on that day, in order, with what was captured. */
  lemma {:induction false} LedgerRecordsCaptures(w: World, events: seq<Event>, d: Date)
    ensures var ledger, captures := Ledger(w, events, d), Effective(w, events, d);
            && |ledger| == |captures|
            && forall i | 0 <= i < |ledger| ::
                 && captures[i] in captures && captures[i].at.date == d
                 && Records(w, ledger[i], captures[i])
    decreases |events|
  {
    hide Run, CaptureStep, Roll, ObjectKey;
    if events != [] {
      LedgerRecordsCaptures(w, events[..|events| - 1], d);
    }
  }

  lemma {:induction false} RunKeepsInv(w: World, events: seq<Event>, contents: set<seq<byte>>)
    requires Sound(w) && Careful(w, events) && Contents(events) <= contents
    ensures Inv(w, contents, Run(w, events).0, Run(w, events).1)
    ensures forall d: Date | RealDate(d) :: HasChain(w, Run(w, events).0.store, d, Ledger(w, events, d))
    decreases |events|
  {
    hide CaptureStep, DirtyAfter, ManifestKey, DayKey, RealDate, Sound, InSync, Added;
    if events == [] {
      EmptyStoreOk(w, contents);
    } else {
      var before := events[..|events| - 1];
      var last := events[|events| - 1];
      assert Contents(before) <= Contents(events);
      RunKeepsInv(w, before, contents);
      var (s, dirty) := Run(w, before);
      if last.Capture? {
        assert last.raw in Contents(events);
        CaptureKeepsInv(w, contents, s, dirty, last.raw, last.protocol, last.at, last.io);
        forall d: Date | RealDate(d)
          ensures HasChain(w, Run(w, events).0.store, d, Ledger(w, events, d))
        {
          CaptureAppends(w, contents, s, dirty, last.raw, last.protocol, last.at, last.io, d, Ledger(w, before, d));
        }
      } else {
        assert forall d :: Ledger(w, events, d) == Ledger(w, before, d) + [] == Ledger(w, before, d);
      }
    }
  }

  lemma {:induction false} EmptyStoreOk(w: World, contents: set<seq<byte>>)
    ensures StoreOk(w, contents, map[])
  {
    forall d: Date | RealDate(d)
      ensures exists entries :: GoodChain(w, contents, map[], d, entries)
    {
      assert GoodChain(w, contents, map[], d, []);
    }
  }

  /** In every careful run, with days changing in either direction, failing reads and puts, and restarts: the stored
      manifest of each day reads back as exactly the entries whose manifest put took effect, verify_chain accepts
      them, and each entry's object is there with the recorded hash, and with the recorded size unless captured
      contents collide. Unless a failed manifest put is pending, the writer agrees with the manifest of its day. */
  lemma {:induction false} EveryManifestVerifies(w: World, events: seq<Event>, d: Date)
    requires Sound(w) && Careful(w, events) && RealDate(d)
    ensures var (s, dirty) := Run(w, events);
            var ledger := Ledger(w, events, d);
            && (ManifestKey(d) in s.store <==> ledger != [])
            && (ledger != [] ==> Read(w.codec, s.store[ManifestKey(d)]) == Some(ledger))
            && Linked(w.hashing, ledger)
            && AllResolve(w, Contents(events), s.store, ledger)
            && (s.writer.day.Some? && !dirty ==> InSync(w, s.store, s.writer))
  {
    hide Run, Ledger, ManifestKey, RealDate, Write, Contents, Linked, AllResolve, InSync, Careful, Read, HexDigests,
         Faithful;
    RunKeepsInv(w, events, Contents(events));
    var s := Run(w, events).0;
    var ledger := Ledger(w, events, d);
    var entries :| GoodChain(w, Contents(events), s.store, d, entries);
    ChainUnique(w, s.store, d, entries, ledger);
    if ledger != [] {
      ReadWritten(w.codec, ledger);
    }
  }
}
