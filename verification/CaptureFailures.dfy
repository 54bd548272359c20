/** Where the capture writer's law ends: captures that go on after a failed manifest put, in any run at all. */
module CaptureFailures {
  import opened Seqs
  import opened HashChain
  import opened Manifest
  import opened Capture
  import opened CaptureRuns

  // --- One step ---

  /** A capture whose manifest put fails leaves the line in memory without advancing the tip. */
  predicate PendingOn(w: World, s: State, d: Date, entries: seq<ChainEntry>, e: ChainEntry) {
    && RealDate(d) && s.writer.day == Some(DayKey(d))
    && s.writer.tip == Tip(entries)
    && s.writer.lines == Lines(w.codec, entries + [e])
    && e.prevHash == Tip(entries) && e.entryHash == HashOfEntry(w.hashing, e)
    && Linked(w.hashing, entries)
  }

  lemma {:induction false} FailedManifestPutIsPending(w: World, contents: set<seq<byte>>, s: State, raw: seq<byte>,
      protocol: string, at: Instant, io: Io) returns (entries: seq<ChainEntry>, e: ChainEntry)
    requires Sound(w) && raw in contents && Inv(w, contents, s, false)
    ensures CaptureStep(w, s, raw, protocol, at, io).1 == ManifestPutFailed ==>
              PendingOn(w, CaptureStep(w, s, raw, protocol, at, io).0, at.date, entries, e)
  {
    hide ManifestKey, DayKey, ObjectKey, RealDate, Write, Linked, AllResolve, StoreOk, Roll, HexDigests, Faithful,
         HasChain, HashInput;
    var d := at.date;
    if s.writer.day != Some(DayKey(d)) && !io.readOk {
      RollUnread(w, s, d);
      entries, e := [], NewEntry(w, s.writer.tip, raw, protocol, at);
      return;
    }
    entries := RollInSync(w, contents, s, d, io.readOk);
    e := NewEntry(w, Tip(entries), raw, protocol, at);
    LinesSnoc(w.codec, entries, e);
  }

  /** A fully successful capture on top of a pending line continues a good store on another day. On the same day it
      writes a manifest that verify_chain rejects, unless the pending entry's hash happens to be the one it continues
      from. */
  lemma {:induction false} AfterFailedManifestPut(w: World, contents: set<seq<byte>>, s: State, d: Date,
      entries: seq<ChainEntry>, e: ChainEntry, raw: seq<byte>, protocol: string, at: Instant)
    requires Sound(w) && raw in contents
    requires PendingOn(w, s, d, entries, e) && StoreOk(w, contents, s.store)
    ensures var store := CaptureStep(w, s, raw, protocol, at, Io(true, Stored, Stored)).0.store;
            && (at.date != d ==> StoreOk(w, contents, store))
            && (at.date == d ==> && ManifestKey(d) in store
                                 && Read(w.codec, store[ManifestKey(d)]).Some?
                                 && (Linked(w.hashing, Read(w.codec, store[ManifestKey(d)]).value)
                                     <==> e.entryHash == e.prevHash))
  {
    hide ManifestKey, DayKey, ObjectKey, RealDate, Write, Linked, AllResolve, StoreOk, Roll, HexDigests, Faithful,
         HasChain, NewEntry, HashInput, Read;
    if DayKey(at.date) == DayKey(d) {
      DayKeyInjective(at.date, d);
      AppendOnPending(w, s, d, entries, e, raw, protocol, at);
    } else {
      CaptureKeepsInv(w, contents, s, true, raw, protocol, at, Io(true, Stored, Stored));
    }
  }

  lemma {:induction false} AppendOnPending(w: World, s: State, d: Date, entries: seq<ChainEntry>, e: ChainEntry,
      raw: seq<byte>, protocol: string, at: Instant)
    requires Sound(w) && at.date == d && PendingOn(w, s, d, entries, e)
    ensures var store := CaptureStep(w, s, raw, protocol, at, Io(true, Stored, Stored)).0.store;
            && ManifestKey(d) in store
            && Read(w.codec, store[ManifestKey(d)]).Some?
            && (Linked(w.hashing, Read(w.codec, store[ManifestKey(d)]).value) <==> e.entryHash == e.prevHash)
  {
    hide ManifestKey, DayKey, ObjectKey, RealDate, Write, Linked, AllResolve, HexDigests, Faithful, HashInput;
    var store := CaptureStep(w, s, raw, protocol, at, Io(true, Stored, Stored)).0.store;
    var f := NewEntry(w, s.writer.tip, raw, protocol, at);
    var two := entries + [e];
    LinesSnoc(w.codec, two, f);
    WriteIs(w.codec, two + [f]);
    assert store[ManifestKey(d)] == Write(w.codec, two + [f]);
    LinkedSnoc(w.hashing, entries, e);
    LinkedSnoc(w.hashing, two, f);
    assert Tip(two) == e.entryHash;
    ReadWritten(w.codec, two + [f]);
  }

  // --- What every run keeps, careful or not ---

  /** The writer's lines extend the stored manifest of its day. They are that manifest, continued by the tip, unless a
      manifest put has failed; then the tip is not that of the lines. */
  ghost predicate Tracks(w: World, store: Store, writer: Writer, dirty: bool, d: Date, stored: seq<ChainEntry>,
      mem: seq<ChainEntry>)
  {
    && RealDate(d) && writer.day == Some(DayKey(d))
    && HasChain(w, store, d, stored) && writer.lines == Lines(w.codec, mem) && stored <= mem
    && if dirty then writer.tip != Tip(mem) else stored == mem && writer.tip == Tip(mem)
  }

  ghost predicate Readable(w: World, store: Store) {
    forall d: Date | RealDate(d) :: exists es :: HasChain(w, store, d, es)
  }

  ghost predicate AnyInv(w: World, s: State, dirty: bool) {
    && Readable(w, s.store)
    && (s.writer.day.None? || exists d, stored, mem :: Tracks(w, s.store, s.writer, dirty, d, stored, mem))
  }

  /** Rolling to the day of a capture leaves a writer that tracks that day. */
  lemma {:induction false} RollTracks(w: World, s: State, dirty: bool, d: Date, readOk: bool)
    returns (stored: seq<ChainEntry>, mem: seq<ChainEntry>)
    requires Sound(w) && RealDate(d) && AnyInv(w, s, dirty)
    requires readOk || s.writer.day == Some(DayKey(d))
    ensures Roll(w, s, d, readOk).1 == None
    ensures Tracks(w, s.store, Roll(w, s, d, readOk).0, dirty && s.writer.day == Some(DayKey(d)), d, stored, mem)
  {
    hide ManifestKey, DayKey, RealDate, Write, Body, SplitLines;
    if s.writer.day == Some(DayKey(d)) {
      var c;
      c, stored, mem :| Tracks(w, s.store, s.writer, dirty, c, stored, mem);
      DayKeyInjective(c, d);
    } else {
      stored :| HasChain(w, s.store, d, stored);
      mem := stored;
      if stored != [] {
        ReadWritten(w.codec, stored);
        var lines := Lines(w.codec, stored);
        assert w.codec.fromJsonl(lines[|lines| - 1]) == Some(stored[|stored| - 1]);
      }
    }
  }

  /** The entry this capture makes does not hash to the value it continues from. */
  predicate NoSelfLink(w: World, s: State, raw: seq<byte>, protocol: string, at: Instant, readOk: bool) {
    var e := NewEntry(w, Roll(w, s, at.date, readOk).0.tip, raw, protocol, at);
    e.entryHash != e.prevHash
  }

  ghost predicate Extends(w: World, store: Store, d: Date, es: seq<ChainEntry>) {
    exists es' :: es <= es' && HasChain(w, store, d, es')
  }

  /** Stored manifests only grow. */
  ghost predicate Grows(w: World, before: Store, after: Store) {
    forall d: Date, es | RealDate(d) && HasChain(w, before, d, es) :: Extends(w, after, d, es)
  }

  ghost predicate Broken(w: World, store: Store, d: Date) {
    RealDate(d) && exists es :: HasChain(w, store, d, es) && !Linked(w.hashing, es)
  }

  lemma {:induction false} RawPutGrows(w: World, store: Store, raw: seq<byte>, protocol: string, at: Instant, fate: Put)
    requires Sound(w) && Readable(w, store)
    ensures var store' := PutObject(store, ObjectKey(at.date, protocol, w.hashing.ofBytes(raw)), raw, fate);
            && Readable(w, store') && Grows(w, store, store')
            && forall d: Date, es | RealDate(d) && HasChain(w, store, d, es) :: HasChain(w, store', d, es)
  {
    hide ObjectKey, PutObject, HasChain, RealDate, Sound;
    var store' := PutObject(store, ObjectKey(at.date, protocol, w.hashing.ofBytes(raw)), raw, fate);
    forall d: Date, es | RealDate(d) && HasChain(w, store, d, es)
      ensures HasChain(w, store', d, es)
    {
      RawPutKeepsChain(w, store, raw, protocol, at, fate, d, es);
    }
  }

  lemma {:induction false} ManifestPutGrows(w: World, store: Store, d: Date, stored: seq<ChainEntry>,
      all: seq<ChainEntry>, fate: Put)
    requires Sound(w) && RealDate(d) && Readable(w, store)
    requires HasChain(w, store, d, stored) && stored <= all && all != []
    ensures var store' := PutObject(store, ManifestKey(d), Write(w.codec, all), fate);
            && Readable(w, store') && Grows(w, store, store')
            && HasChain(w, store', d, if fate.Lost? then stored else all)
  {
    hide ManifestKey, RealDate, Write, HexDigests, Faithful;
    var store' := PutObject(store, ManifestKey(d), Write(w.codec, all), fate);
    forall c: Date, es | RealDate(c) && HasChain(w, store, c, es)
      ensures Extends(w, store', c, es)
    {
      if c == d {
        ChainUnique(w, store, d, es, stored);
        assert es <= if fate.Lost? then stored else all;
        assert HasChain(w, store', d, if fate.Lost? then stored else all);
      } else {
        OtherDayKept(w, store, d, all, fate, c, es);
        assert es <= es;
      }
    }
    forall c: Date | RealDate(c)
      ensures exists es :: HasChain(w, store', c, es)
    {
      var es :| HasChain(w, store, c, es);
      assert Extends(w, store', c, es);
    }
  }

  /** Any capture at all: manifests only grow, and the one that breaks a chain is the one whose manifest put takes
      effect on a pending day. */
  lemma {:induction false} AnyCapture(w: World, s: State, dirty: bool, raw: seq<byte>, protocol: string, at: Instant,
      io: Io)
    requires Sound(w) && AnyInv(w, s, dirty) && NoSelfLink(w, s, raw, protocol, at, io.readOk)
    ensures var (s', outcome) := CaptureStep(w, s, raw, protocol, at, io);
            && AnyInv(w, s', DirtyAfter(s, dirty, at, outcome))
            && Grows(w, s.store, s'.store)
            && (Breaks(s, dirty, at, io) ==> Broken(w, s'.store, at.date))
  {
    hide ManifestKey, DayKey, ObjectKey, RealDate, Write, Linked, HasChain, Roll, NewEntry, HexDigests, Faithful,
         Readable, Grows, PutObject, Tip, Broken, Body, Lines, HashInput;
    var d := at.date;
    assert Grows(w, s.store, s.store) by { GrowsNot(w, s.store); }
    if s.writer.day != Some(DayKey(d)) && !io.readOk {
      RollUnread(w, s, d);
      return;
    }
    var stored, mem := RollTracks(w, s, dirty, d, io.readOk);
    var writer := Roll(w, s, d, io.readOk).0;
    var e := NewEntry(w, writer.tip, raw, protocol, at);
    NewEntryKey(w, writer.tip, raw, protocol, at);
    EntryContinues(w, writer.tip, raw, protocol, at);
    var store1 := PutObject(s.store, e.objectKey, raw, io.rawPut);
    RawPutGrows(w, s.store, raw, protocol, at, io.rawPut);
    var pending := OnPendingDay(s, dirty, at);
    assert Tracks(w, store1, writer, pending, d, stored, mem);
    if io.rawPut.Stored? {
      AppendLine(w, store1, writer, pending, d, stored, mem, e, io.manifestPut);
      GrowsTwice(w, s.store, store1, CaptureStep(w, s, raw, protocol, at, io).0.store);
    }
  }

  /** Writing the manifest with one more line that continues the tip. */
  lemma {:induction false} AppendLine(w: World, store: Store, writer: Writer, pending: bool, d: Date,
      stored: seq<ChainEntry>, mem: seq<ChainEntry>, e: ChainEntry, fate: Put)
    requires Sound(w) && Readable(w, store) && Tracks(w, store, writer, pending, d, stored, mem)
    requires e.prevHash == writer.tip && e.entryHash != e.prevHash
    ensures var lines := writer.lines + [w.codec.toJsonl(e)];
            var store' := PutObject(store, ManifestKey(d), w.codec.encode(Body(lines)), fate);
            var writer' := if fate.Stored? then Writer(writer.day, e.entryHash, lines) else writer.(lines := lines);
            && AnyInv(w, State(store', writer'), !fate.Stored?)
            && Grows(w, store, store')
            && (pending && !fate.Lost? ==> Broken(w, store', d))
  {
    hide ManifestKey, DayKey, RealDate, Write, Linked, HasChain, HexDigests, Faithful, Readable, Grows, PutObject, Body;
    var all := mem + [e];
    LinesSnoc(w.codec, mem, e);
    WriteIs(w.codec, all);
    ManifestPutGrows(w, store, d, stored, all, fate);
    var store' := PutObject(store, ManifestKey(d), Write(w.codec, all), fate);
    assert Tip(all) == e.entryHash;
    if fate.Stored? {
      assert Tracks(w, store', Writer(writer.day, e.entryHash, Lines(w.codec, all)), false, d, all, all);
    } else {
      var stored' := if fate.Lost? then stored else all;
      assert Tracks(w, store', writer.(lines := Lines(w.codec, all)), true, d, stored', all);
    }
    if pending && !fate.Lost? {
      NotLinkedOnto(w, mem, e);
    }
  }

  lemma {:induction false} EntryContinues(w: World, tip: string, raw: seq<byte>, protocol: string, at: Instant)
    ensures NewEntry(w, tip, raw, protocol, at).prevHash == tip
  {
  }

  lemma {:induction false} NotLinkedOnto(w: World, mem: seq<ChainEntry>, e: ChainEntry)
    requires e.prevHash != Tip(mem)
    ensures !Linked(w.hashing, mem + [e])
  {
    assert (mem + [e])[..|mem|] == mem;
    assert !LinkedAt(w.hashing, mem + [e], |mem|);
  }

  lemma {:induction false} GrowsNot(w: World, store: Store)
    ensures Grows(w, store, store)
  {
    hide HasChain;
    forall d: Date, es | RealDate(d) && HasChain(w, store, d, es)
      ensures Extends(w, store, d, es)
    {
      assert es <= es;
    }
  }

  lemma {:induction false} GrowsTwice(w: World, a: Store, b: Store, c: Store)
    requires Grows(w, a, b) && Grows(w, b, c)
    ensures Grows(w, a, c)
  {
    hide HasChain, RealDate;
    forall d: Date, es | RealDate(d) && HasChain(w, a, d, es)
      ensures Extends(w, c, d, es)
    {
      var es' :| es <= es' && HasChain(w, b, d, es');
      var es'' :| es' <= es'' && HasChain(w, c, d, es'');
      assert es <= es'';
    }
  }

  lemma {:induction false} StaysBroken(w: World, a: Store, b: Store, d: Date)
    requires Grows(w, a, b) && Broken(w, a, d)
    ensures Broken(w, b, d)
  {
    hide HasChain, RealDate;
    var es :| HasChain(w, a, d, es) && !Linked(w.hashing, es);
    var es' :| es <= es' && HasChain(w, b, d, es');
    if Linked(w.hashing, es') {
      PrefixLinked(w.hashing, es', |es|);
      assert es'[..|es|] == es;
    }
  }

  // --- Runs ---

  /** No entry made in the run hashes to the value it continues from. */
  predicate NoSelfLinks(w: World, events: seq<Event>) {
    events == [] ||
    var before := events[..|events| - 1];
    var last := events[|events| - 1];
    && NoSelfLinks(w, before)
    && (last.Capture? ==> NoSelfLink(w, Run(w, before).0, last.raw, last.protocol, last.at, last.io.readOk))
  }

  lemma {:induction false} AnyRun(w: World, events: seq<Event>)
    requires Sound(w) && NoSelfLinks(w, events)
    ensures AnyInv(w, Run(w, events).0, Run(w, events).1)
    ensures !Careful(w, events) ==> exists d :: Broken(w, Run(w, events).0.store, d)
    decreases |events|
  {
    hide CaptureStep, DirtyAfter, Sound, NoSelfLink, Broken, Breaks, Tracks, Grows;
    if events == [] {
      NothingStored(w);
    } else {
      var before := events[..|events| - 1];
      var last := events[|events| - 1];
      AnyRun(w, before);
      var (s, dirty) := Run(w, before);
      if last.Capture? {
        AnyCapture(w, s, dirty, last.raw, last.protocol, last.at, last.io);
        if !Careful(w, before) {
          var d :| Broken(w, s.store, d);
          StaysBroken(w, s.store, Run(w, events).0.store, d);
        }
      }
    }
  }

  lemma {:induction false} NothingStored(w: World)
    ensures Readable(w, map[])
  {
    forall d: Date | RealDate(d)
      ensures exists es :: HasChain(w, map[], d, es)
    {
      assert HasChain(w, map[], d, []);
    }
  }

  /** The stored manifest of a day, if there is one, reads back as a chain that verify_chain accepts. */
  predicate Verifies(w: World, store: Store, d: Date) {
    ManifestKey(d) in store ==>
      && Read(w.codec, store[ManifestKey(d)]).Some?
      && Linked(w.hashing, Read(w.codec, store[ManifestKey(d)]).value)
  }

  /** For every run, with days changing in either direction, failing reads and puts, and restarts: all stored manifests
      verify if and only if no manifest put took effect on a pending day. */
  lemma {:induction false} ManifestsVerifyIff(w: World, events: seq<Event>)
    requires Sound(w) && NoSelfLinks(w, events)
    ensures (forall d: Date | RealDate(d) :: Verifies(w, Run(w, events).0.store, d)) <==> Careful(w, events)
  {
    hide Run, Ledger, ManifestKey, RealDate, Write, Contents, AllResolve, InSync, Careful, Read, HexDigests, Faithful,
         Linked, NoSelfLinks, AnyInv, HasChain;
    var store := Run(w, events).0.store;
    AnyRun(w, events);
    if Careful(w, events) {
      forall d: Date | RealDate(d)
        ensures Verifies(w, store, d)
      {
        EveryManifestVerifies(w, events, d);
      }
    } else {
      var d :| Broken(w, store, d);
      BrokenFails(w, store, d);
    }
  }

  lemma {:induction false} BrokenFails(w: World, store: Store, d: Date)
    requires Sound(w) && Broken(w, store, d)
    ensures RealDate(d) && !Verifies(w, store, d)
  {
    hide ManifestKey, RealDate, Write, Read, HexDigests, Faithful;
    var es :| HasChain(w, store, d, es) && !Linked(w.hashing, es);
    assert es != [];
    ReadWritten(w.codec, es);
  }
}
