/** The capture writer: raw objects and one hash-chained manifest per day in an object store that may
    fail, and a writer that changes days in either direction and restarts. */
module Capture {
  import opened Seqs
  import opened HashChain
  import opened Manifest

  datatype World = World(hashing: Hashing, codec: Codec)

  ghost predicate Sound(w: World) {
    HexDigests(w.hashing) && Faithful(w.codec)
  }

  type Store = map<string, seq<byte>>

  /** How an object put ends. A put that raises may or may not have taken effect. */
  datatype Put = Stored | Lost | StoredThenFailed

  /** How the store answers during one capture: whether reading a manifest works, and the two puts. */
  datatype Io = Io(readOk: bool, rawPut: Put, manifestPut: Put)

  datatype Writer = Writer(day: Option<string>, tip: string, lines: seq<string>)

  datatype State = State(store: Store, writer: Writer)

  datatype Outcome =
    | Captured(entry: ChainEntry)
    | ReadFailed
    | Unreadable
    | RawPutFailed
    | ManifestPutFailed

  const FRESH_WRITER := Writer(None, GENESIS_PREV_HASH, [])

  // --- Keys ---

  function DayKey(d: Date): string {
    DateText(d, '-')
  }

  function ManifestKey(d: Date): string {
    "raw/" + DateText(d, '/') + "/manifest.jsonl"
  }

  function ObjectKey(d: Date, protocol: string, sha: string): string {
    "raw/" + DateText(d, '/') + "/" + protocol + "/" + (if |sha| >= 2 then sha[..2] else sha) + "/" + sha
  }

  /** How keys are laid out: the year, month and day of the capture in decimal, and for a raw object then the protocol,
      the first two characters of its hash, and the hash. */
  lemma {:induction false} KeysAre(d: Date, protocol: string, sha: string)
    requires RealDate(d) && |sha| >= 2
    ensures IsDateText(DayKey(d), d, '-')
    ensures var k := ManifestKey(d);
            |k| >= 14 && k[..4] == "raw/" && IsDateText(k[4..14], d, '/') && k[14..] == "/manifest.jsonl"
    ensures var k := ObjectKey(d, protocol, sha);
            && |k| >= 14 && k[..4] == "raw/" && IsDateText(k[4..14], d, '/')
            && k[14..] == "/" + protocol + "/" + sha[..2] + "/" + sha
  {
    hide DateText, IsDateText;
    DateTextIs(d, '-');
    DateTextIs(d, '/');
    var date, tail := DateText(d, '/'), "/" + protocol + "/" + sha[..2] + "/" + sha;
    assert ManifestKey(d)[4..14] == date && ManifestKey(d)[14..] == "/manifest.jsonl";
    assert ObjectKey(d, protocol, sha) == "raw/" + date + tail;
    assert ObjectKey(d, protocol, sha)[4..14] == date && ObjectKey(d, protocol, sha)[14..] == tail;
  }

  lemma {:induction false} ManifestKeyInjective(d: Date, e: Date)
    requires RealDate(d) && RealDate(e) && ManifestKey(d) == ManifestKey(e)
    ensures d == e
  {
    assert DateText(d, '/') == ManifestKey(d)[4..14] == ManifestKey(e)[4..14] == DateText(e, '/');
    DateTextInjective(d, e, '/');
  }

  /** Raw objects are addressed by content and never land on a manifest. */
  lemma {:induction false} RawKeys(d: Date, p: string, sha: string, e: Date, q: string, sha': string)
    requires |sha| == |sha'| == 64
    ensures ObjectKey(d, p, sha) != ManifestKey(e)
    ensures ObjectKey(d, p, sha) == ObjectKey(e, q, sha') ==> sha == sha'
  {
    var k, l := ObjectKey(d, p, sha), ObjectKey(e, q, sha');
    assert |ManifestKey(e)| == 29 && |k| >= 64;
    assert sha == k[|k| - 64..] && sha' == l[|l| - 64..];
  }

  // --- Specification of the writer ---

  function PutObject(store: Store, key: string, data: seq<byte>, fate: Put): Store {
    if fate.Lost? then store else store[key := data]
  }

  /** Load or start the chain of the given day. None if that worked, otherwise how it failed. */
  function Roll(w: World, s: State, d: Date, readOk: bool): (Writer, Option<Outcome>) {
    if s.writer.day == Some(DayKey(d)) then (s.writer, None)
    else if !readOk then (s.writer, Some(ReadFailed))
    else if ManifestKey(d) !in s.store then (Writer(Some(DayKey(d)), GENESIS_PREV_HASH, []), None)
    else
      match w.codec.decode(s.store[ManifestKey(d)])
      case None => (s.writer, Some(Unreadable))
      case Some(text) =>
        var lines := SplitLines(text);
        if lines == [] then (Writer(Some(DayKey(d)), GENESIS_PREV_HASH, []), None)
        else
          match w.codec.fromJsonl(lines[|lines| - 1])
          case None => (s.writer.(lines := lines), Some(Unreadable))
          case Some(last) => (Writer(Some(DayKey(d)), last.entryHash, lines), None)
  }

  function NewEntry(w: World, tip: string, raw: seq<byte>, protocol: string, at: Instant): ChainEntry {
    MakeEntry(w.hashing, tip, raw, at, ObjectKey(at.date, protocol, w.hashing.ofBytes(raw)), protocol)
  }

  function CaptureStep(w: World, s: State, raw: seq<byte>, protocol: string, at: Instant, io: Io): (State, Outcome) {
    var (writer, failure) := Roll(w, s, at.date, io.readOk);
    if failure.Some? then (State(s.store, writer), failure.value)
    else
      var entry := NewEntry(w, writer.tip, raw, protocol, at);
      var store := PutObject(s.store, entry.objectKey, raw, io.rawPut);
      if !io.rawPut.Stored? then (State(store, writer), RawPutFailed)
      else
        var lines := writer.lines + [w.codec.toJsonl(entry)];
        var store := PutObject(store, ManifestKey(at.date), w.codec.encode(Body(lines)), io.manifestPut);
        if !io.manifestPut.Stored? then (State(store, writer.(lines := lines)), ManifestPutFailed)
        else (State(store, Writer(writer.day, entry.entryHash, lines)), Captured(entry))
  }

  // --- The objects ---

  class Bucket {
    var objects: Store

    constructor (objects: Store)
      ensures this.objects == objects
    {
      this.objects := objects;
    }

    method Put(key: string, data: seq<byte>, fate: Put) returns (ok: bool)
      modifies this
      ensures objects == PutObject(old(objects), key, data, fate)
      ensures ok <==> fate.Stored?
    {
      if !fate.Lost? {
        objects := objects[key := data];
      }
      ok := fate.Stored?;
    }

    method Get(key: string) returns (data: Option<seq<byte>>)
      ensures data == if key in objects then Some(objects[key]) else None
    {
      data := if key in objects then Some(objects[key]) else None;
    }
  }

  class CaptureWriter {
    const world: World
    const client: Bucket
    var chainDay: Option<string>
    var chainTip: string
    var chainManifestLines: seq<string>

    constructor (world: World, client: Bucket)
      ensures this.world == world && this.client == client
      ensures Current() == State(client.objects, FRESH_WRITER)
    {
      this.world, this.client := world, client;
      chainDay, chainTip, chainManifestLines := None, GENESIS_PREV_HASH, [];
    }

    function Current(): State
      reads this, client
    {
      State(client.objects, Writer(chainDay, chainTip, chainManifestLines))
    }

    method RollChainIfNeeded(at: Instant, readOk: bool) returns (failure: Option<Outcome>)
      modifies this
      ensures (Current().writer, failure) == Roll(world, old(Current()), at.date, readOk)
    {
      var dayKey := DayKey(at.date);
      if chainDay == Some(dayKey) {
        return None;
      }
      if !readOk {
        return Some(ReadFailed);
      }
      var existing := client.Get(ManifestKey(at.date));
      if existing.None? {
        chainTip, chainManifestLines := GENESIS_PREV_HASH, [];
      } else {
        var text := world.codec.decode(existing.value);
        if text.None? {
          return Some(Unreadable);
        }
        var lines := SplitLines(text.value);
        chainManifestLines := lines;
        if lines != [] {
          var last := world.codec.fromJsonl(lines[|lines| - 1]);
          if last.None? {
            return Some(Unreadable);
          }
          chainTip := last.value.entryHash;
        } else {
          chainTip := GENESIS_PREV_HASH;
        }
      }
      chainDay := Some(dayKey);
      return None;
    }

    method AppendManifestLine(at: Instant, line: string, fate: Put) returns (ok: bool)
      modifies this`chainManifestLines, client
      ensures chainManifestLines == old(chainManifestLines) + [line]
      ensures client.objects ==
              PutObject(old(client.objects), ManifestKey(at.date), world.codec.encode(Body(chainManifestLines)), fate)
      ensures ok <==> fate.Stored?
    {
      chainManifestLines := chainManifestLines + [line];
      var body := world.codec.encode(Body(chainManifestLines));
      ok := client.Put(ManifestKey(at.date), body, fate);
    }

    method Capture(raw: seq<byte>, protocol: string, at: Instant, io: Io) returns (outcome: Outcome)
      modifies this, client
      ensures (Current(), outcome) == CaptureStep(world, old(Current()), raw, protocol, at, io)
    {
      var failure := RollChainIfNeeded(at, io.readOk);
      if failure.Some? {
        return failure.value;
      }
      var entry := MakeEntry(world.hashing, chainTip, raw, at, "PLACEHOLDER", protocol);
      var objectKey := ObjectKey(at.date, protocol, entry.sha256);
      entry := ChainEntry(entry.sha256, entry.prevHash, entry.entryHash, entry.capturedAt, objectKey, entry.sizeBytes,
                          protocol);
      var ok := client.Put(objectKey, raw, io.rawPut);
      if !ok {
        return RawPutFailed;
      }
      ok := AppendManifestLine(at, world.codec.toJsonl(entry), io.manifestPut);
      if !ok {
        return ManifestPutFailed;
      }
      chainTip := entry.entryHash;
      return Captured(entry);
    }
  }
}
