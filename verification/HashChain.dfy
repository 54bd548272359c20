/** The tamper-evident chain of capture entries. */
module HashChain {
  import opened Seqs

  // --- Timestamps ---

  datatype Date = Date(year: nat, month: nat, day: nat)

  predicate RealDate(d: Date) {
    1 <= d.year <= 9999 && 1 <= d.month <= 12 && 1 <= d.day <= 31
  }

  datatype Moment = Moment(date: Date, clock: string)

  /** A timezone-aware datetime: its calendar date, and the rest of its ISO text (time of day and
      offset), which holds no newline. */
  type Instant = t: Moment | RealDate(t.date) && '\n' !in t.clock
    witness Moment(Date(2026, 5, 20), "T12:00:00+00:00")

  /** The decimal digits of n, exactly w of them. */
  function Pad(n: nat, w: nat): (s: string)
    ensures |s| == w
    ensures forall c | c in s :: '0' <= c <= '9'
  {
    if w == 0 then "" else Pad(n / 10, w - 1) + ["0123456789"[n % 10]]
  }

  function Pow10(w: nat): nat {
    if w == 0 then 1 else 10 * Pow10(w - 1)
  }

  lemma {:induction false} PadInjective(m: nat, n: nat, w: nat)
    requires Pad(m, w) == Pad(n, w) && m < Pow10(w) && n < Pow10(w)
    ensures m == n
  {
    if w > 0 {
      assert Pad(m, w)[w - 1] == Pad(n, w)[w - 1];
      assert Pad(m, w)[..w - 1] == Pad(m / 10, w - 1) && Pad(n, w)[..w - 1] == Pad(n / 10, w - 1);
      PadInjective(m / 10, n / 10, w - 1);
    }
  }

  /** Reading decimal digits. */
  function NumberOf(s: string): int {
    if s == "" then 0 else 10 * NumberOf(s[..|s| - 1]) + (s[|s| - 1] as int - '0' as int)
  }

  predicate Digits(s: string) {
    forall c | c in s :: '0' <= c <= '9'
  }

  lemma {:induction false} PadReads(n: nat, w: nat)
    requires n < Pow10(w)
    ensures NumberOf(Pad(n, w)) == n
  {
    if w > 0 {
      PadReads(n / 10, w - 1);
      DigitReads(n % 10);
      assert Pad(n, w)[..w - 1] == Pad(n / 10, w - 1);
    }
  }

  lemma {:induction false} DigitReads(d: nat)
    requires d < 10
    ensures "0123456789"[d] as int - '0' as int == d
  {
  }

  /** A date in text: four digits of the year, two of the month, two of the day, in this order. */
  predicate IsDateText(s: string, d: Date, sep: char) {
    && |s| == 10 && s[4] == sep && s[7] == sep
    && Digits(s[..4]) && NumberOf(s[..4]) == d.year
    && Digits(s[5..7]) && NumberOf(s[5..7]) == d.month
    && Digits(s[8..]) && NumberOf(s[8..]) == d.day
  }

  lemma {:induction false} DateTextIs(d: Date, sep: char)
    requires RealDate(d)
    ensures IsDateText(DateText(d, sep), d, sep)
  {
    hide NumberOf;
    var s := DateText(d, sep);
    assert s[..4] == Pad(d.year, 4) && s[5..7] == Pad(d.month, 2) && s[8..] == Pad(d.day, 2);
    assert Pow10(4) == 10000 && Pow10(2) == 100;
    PadReads(d.year, 4);
    PadReads(d.month, 2);
    PadReads(d.day, 2);
  }

  /** yyyy, mm and dd joined by a separator. */
  function DateText(d: Date, sep: char): (s: string)
    ensures |s| == 10
  {
    Pad(d.year, 4) + [sep] + Pad(d.month, 2) + [sep] + Pad(d.day, 2)
  }

  lemma {:induction false} DateTextInjective(d: Date, e: Date, sep: char)
    requires RealDate(d) && RealDate(e) && DateText(d, sep) == DateText(e, sep)
    ensures d == e
  {
    var s, t := DateText(d, sep), DateText(e, sep);
    assert Pad(d.year, 4) == s[0..4] == t[0..4] == Pad(e.year, 4);
    assert Pad(d.month, 2) == s[5..7] == t[5..7] == Pad(e.month, 2);
    assert Pad(d.day, 2) == s[8..10] == t[8..10] == Pad(e.day, 2);
    assert Pow10(4) == 10000 && Pow10(2) == 100;
    PadInjective(d.year, e.year, 4);
    PadInjective(d.month, e.month, 2);
    PadInjective(d.day, e.day, 2);
  }

  function IsoFormat(t: Instant): string {
    DateText(t.date, '-') + t.clock
  }

  lemma {:induction false} IsoInjective(t: Instant, u: Instant)
    requires IsoFormat(t) == IsoFormat(u)
    ensures t == u
  {
    assert DateText(t.date, '-') == IsoFormat(t)[..10] == IsoFormat(u)[..10] == DateText(u.date, '-');
    assert t.clock == IsoFormat(t)[10..] == IsoFormat(u)[10..] == u.clock;
    DateTextInjective(t.date, u.date, '-');
  }

  lemma {:induction false} IsoOneLine(t: Instant)
    ensures '\n' !in IsoFormat(t)
  {
    assert forall c | c in Pad(t.date.year, 4) + Pad(t.date.month, 2) + Pad(t.date.day, 2) :: c != '\n';
  }

  // --- Entries ---

  /** 64 zero digits */
  const GENESIS_PREV_HASH: string := Pad(0, 64)

  datatype ChainEntry = ChainEntry(
    sha256: string,
    prevHash: string,
    entryHash: string,
    capturedAt: Instant,
    objectKey: string,
    sizeBytes: nat,
    protocol: string)

  /** SHA-256 as lower-case hex, of bytes and of the UTF-8 encoding of a text. */
  datatype Hashing = Hashing(ofBytes: seq<byte> -> string, ofText: string -> string)

  /** What a hexadecimal digest looks like. */
  ghost predicate HexDigests(h: Hashing) {
    && (forall b :: |h.ofBytes(b)| == 64)
    && (forall s :: '\n' !in h.ofText(s))
  }

  function HashInput(prevHash: string, sha256: string, capturedAt: Instant): string {
    prevHash + "\n" + sha256 + "\n" + IsoFormat(capturedAt)
  }

  function ComputeEntryHash(h: Hashing, prevHash: string, sha256: string, capturedAt: Instant): string {
    h.ofText(HashInput(prevHash, sha256, capturedAt))
  }

  function MakeEntry(h: Hashing, prevHash: string, raw: seq<byte>, capturedAt: Instant, objectKey: string,
      protocol: string): ChainEntry {
    var sha := h.ofBytes(raw);
    ChainEntry(sha, prevHash, ComputeEntryHash(h, prevHash, sha, capturedAt), capturedAt,
               objectKey, |raw|, protocol)
  }

  // --- Verification ---

  datatype Mismatch = PrevHashMismatch(index: nat) | EntryHashMismatch(index: nat)

  function HashOfEntry(h: Hashing, e: ChainEntry): string {
    ComputeEntryHash(h, e.prevHash, e.sha256, e.capturedAt)
  }

  /** The entry_hash the next entry must continue from. */
  function Tip(entries: seq<ChainEntry>): string {
    if entries == [] then GENESIS_PREV_HASH else entries[|entries| - 1].entryHash
  }

  /** Each entry continues the one before it and hashes its own inputs. */
  predicate LinkedAt(h: Hashing, entries: seq<ChainEntry>, i: nat)
    requires i < |entries|
  {
    entries[i].prevHash == Tip(entries[..i]) && entries[i].entryHash == HashOfEntry(h, entries[i])
  }

  predicate Linked(h: Hashing, entries: seq<ChainEntry>) {
    forall i | 0 <= i < |entries| :: LinkedAt(h, entries, i)
  }

  // --- What is hashed, written out ---

  /** The ISO text of an instant: its date, then the rest. */
  predicate IsIsoText(s: string, t: Instant) {
    |s| >= 10 && IsDateText(s[..10], t.date, '-') && s[10..] == t.clock
  }

  /** The text up to a newline is the previous hash, up to the next one the content hash, and then the ISO time. */
  predicate IsHashedText(s: string, prevHash: string, sha256: string, capturedAt: Instant) {
    var i, j := |prevHash|, |prevHash| + 1 + |sha256|;
    && j < |s| && s[..i] == prevHash && s[i] == '\n' && s[i + 1..j] == sha256 && s[j] == '\n'
    && IsIsoText(s[j + 1..], capturedAt)
  }

  /** Sixty-four zeros. */
  predicate IsGenesis(s: string) {
    |s| == 64 && forall c | c in s :: c == '0'
  }

  /** A genuine chain: each entry hash is that of the entry's own text, and each previous hash the entry hash before. */
  ghost predicate Genuine(h: Hashing, entries: seq<ChainEntry>) {
    forall i | 0 <= i < |entries| :: GenuineAt(h, entries, i)
  }

  ghost predicate GenuineAt(h: Hashing, entries: seq<ChainEntry>, i: nat)
    requires i < |entries|
  {
    var e := entries[i];
    && (exists s :: IsHashedText(s, e.prevHash, e.sha256, e.capturedAt) && e.entryHash == h.ofText(s))
    && Continues(entries, i)
  }

  /** The previous hash of the first entry is all zeros, of any other the hash of the entry before it. */
  predicate Continues(entries: seq<ChainEntry>, i: nat)
    requires i < |entries|
  {
    if i == 0 then IsGenesis(entries[i].prevHash) else entries[i].prevHash == entries[i - 1].entryHash
  }

  lemma {:induction false} IsoTextIs(t: Instant)
    ensures IsIsoText(IsoFormat(t), t)
  {
    hide IsDateText, DateText;
    DateTextIs(t.date, '-');
    assert IsoFormat(t)[..10] == DateText(t.date, '-') && IsoFormat(t)[10..] == t.clock;
  }

  /** A date is written in only one way. */
  lemma {:induction false} DateTextUnique(s: string, d: Date, sep: char)
    requires RealDate(d) && IsDateText(s, d, sep)
    ensures s == DateText(d, sep)
  {
    hide NumberOf, Pad;
    var t := DateText(d, sep);
    DateTextIs(d, sep);
    NumberUnique(s[..4], t[..4]);
    NumberUnique(s[5..7], t[5..7]);
    NumberUnique(s[8..], t[8..]);
    assert s == s[..4] + [s[4]] + s[5..7] + [s[7]] + s[8..];
    assert t == t[..4] + [t[4]] + t[5..7] + [t[7]] + t[8..];
  }

  lemma {:induction false} NumberUnique(s: string, t: string)
    requires Digits(s) && Digits(t) && |s| == |t| && NumberOf(s) == NumberOf(t)
    ensures s == t
  {
    if s != "" {
      var n := |s| - 1;
      assert s[n] in s && t[n] in t;
      var a, b := NumberOf(s[..n]), NumberOf(t[..n]);
      var x, y := s[n] as int - '0' as int, t[n] as int - '0' as int;
      assert 10 * a + x == 10 * b + y && 0 <= x <= 9 && 0 <= y <= 9;
      assert x == y && a == b;
      assert forall c | c in s[..n] :: c in s;
      assert forall c | c in t[..n] :: c in t;
      NumberUnique(s[..n], t[..n]);
      assert s == s[..n] + [s[n]] && t == t[..n] + [t[n]];
    }
  }

  /** That text and no other is the one hashed. */
  lemma {:induction false} HashedTextIs(s: string, prevHash: string, sha256: string, capturedAt: Instant)
    ensures IsHashedText(s, prevHash, sha256, capturedAt) <==> s == HashInput(prevHash, sha256, capturedAt)
  {
    hide IsoFormat, IsDateText, DateText;
    var t := HashInput(prevHash, sha256, capturedAt);
    var i, j := |prevHash|, |prevHash| + 1 + |sha256|;
    IsoTextIs(capturedAt);
    assert t[..i] == prevHash && t[i + 1..j] == sha256 && t[j + 1..] == IsoFormat(capturedAt);
    if IsHashedText(s, prevHash, sha256, capturedAt) {
      IsoTextUnique(s[j + 1..], capturedAt);
      assert s == s[..i] + [s[i]] + s[i + 1..j] + [s[j]] + s[j + 1..];
    }
  }

  lemma {:induction false} IsoTextUnique(s: string, t: Instant)
    requires IsIsoText(s, t)
    ensures s == IsoFormat(t)
  {
    hide IsDateText, DateText;
    DateTextUnique(s[..10], t.date, '-');
    assert s == s[..10] + s[10..];
  }

  lemma {:induction false} GenesisIs(s: string)
    ensures IsGenesis(s) <==> s == GENESIS_PREV_HASH
  {
    PadZeros(64);
    if IsGenesis(s) {
      assert forall i | 0 <= i < 64 :: s[i] in s && GENESIS_PREV_HASH[i] in GENESIS_PREV_HASH;
    }
  }

  lemma {:induction false} PadZeros(w: nat)
    ensures forall c | c in Pad(0, w) :: c == '0'
  {
    if w > 0 {
      PadZeros(w - 1);
    }
  }

  /** What verify_chain checks is that the chain is genuine. */
  lemma {:induction false} LinkedIffGenuine(h: Hashing, entries: seq<ChainEntry>)
    ensures Linked(h, entries) <==> Genuine(h, entries)
  {
    hide GENESIS_PREV_HASH, IsHashedText, IsGenesis, HashInput;
    forall i | 0 <= i < |entries|
      ensures LinkedAt(h, entries, i) <==> GenuineAt(h, entries, i)
    {
      LinkedAtIff(h, entries, i);
    }
  }

  lemma {:induction false} LinkedAtIff(h: Hashing, entries: seq<ChainEntry>, i: nat)
    requires i < |entries|
    ensures LinkedAt(h, entries, i) <==> GenuineAt(h, entries, i)
  {
    hide IsHashedText, IsGenesis, HashInput, Pad;
    var e := entries[i];
    GenesisIs(e.prevHash);
    var text := HashInput(e.prevHash, e.sha256, e.capturedAt);
    forall s
      ensures IsHashedText(s, e.prevHash, e.sha256, e.capturedAt) <==> s == text
    {
      HashedTextIs(s, e.prevHash, e.sha256, e.capturedAt);
    }
    assert i > 0 ==> Tip(entries[..i]) == entries[i - 1].entryHash;
  }

  lemma {:induction false} MismatchIs(h: Hashing, entries: seq<ChainEntry>, i: nat)
    requires i < |entries| && Linked(h, entries[..i]) && !LinkedAt(h, entries, i)
    ensures Genuine(h, entries[..i]) && !GenuineAt(h, entries, i)
    ensures Continues(entries, i) <==> entries[i].prevHash == Tip(entries[..i])
  {
    hide Genuine, GenuineAt, Linked, LinkedAt, IsGenesis, Pad;
    LinkedIffGenuine(h, entries[..i]);
    LinkedAtIff(h, entries, i);
    GenesisIs(entries[i].prevHash);
    assert i > 0 ==> Tip(entries[..i]) == entries[i - 1].entryHash;
  }

  /** verify_chain: accepts exactly the genuine chains, and otherwise names the first break. */
  method VerifyChain(h: Hashing, entries: seq<ChainEntry>) returns (ok: bool, error: Option<Mismatch>)
    ensures ok <==> Linked(h, entries)
    ensures ok <==> Genuine(h, entries)
    ensures ok <==> error.None?
    ensures error.Some? ==>
              var i := error.value.index;
              && i < |entries| && Linked(h, entries[..i]) && !LinkedAt(h, entries, i)
              && (error.value.PrevHashMismatch? <==> entries[i].prevHash != Tip(entries[..i]))
    ensures error.Some? ==>
              var i := error.value.index;
              && i < |entries| && Genuine(h, entries[..i]) && !GenuineAt(h, entries, i)
              && (error.value.PrevHashMismatch? <==> !Continues(entries, i))
  {
    hide Genuine, GenuineAt, Continues, Pad;
    LinkedIffGenuine(h, entries);
    var prev := GENESIS_PREV_HASH;
    var i := 0;
    while i < |entries|
      invariant 0 <= i <= |entries|
      invariant prev == Tip(entries[..i])
      invariant forall j | 0 <= j < i :: LinkedAt(h, entries, j)
    {
      var e := entries[i];
      if e.prevHash != prev {
        PrefixLinked(h, entries, i);
        assert !LinkedAt(h, entries, i);
        MismatchIs(h, entries, i);
        return false, Some(PrevHashMismatch(i));
      }
      var expected := ComputeEntryHash(h, e.prevHash, e.sha256, e.capturedAt);
      if e.entryHash != expected {
        PrefixLinked(h, entries, i);
        assert !LinkedAt(h, entries, i);
        MismatchIs(h, entries, i);
        return false, Some(EntryHashMismatch(i));
      }
      assert LinkedAt(h, entries, i);
      prev := e.entryHash;
      i := i + 1;
    }
    return true, None;
  }

  /** Truncating a chain at its end goes unnoticed. */
  lemma {:induction false} PrefixLinked(h: Hashing, entries: seq<ChainEntry>, n: nat)
    requires n <= |entries| && forall j | 0 <= j < n :: LinkedAt(h, entries, j)
    ensures Linked(h, entries[..n])
  {
    forall i | 0 <= i < n
      ensures LinkedAt(h, entries[..n], i)
    {
      assert LinkedAt(h, entries, i);
      assert entries[..n][..i] == entries[..i];
    }
  }

  /** A chain stays linked when one more entry continues its tip. */
  lemma {:induction false} LinkedSnoc(h: Hashing, entries: seq<ChainEntry>, e: ChainEntry)
    requires Linked(h, entries)
    ensures Linked(h, entries + [e]) <==> e.prevHash == Tip(entries) && e.entryHash == HashOfEntry(h, e)
  {
    var all := entries + [e];
    forall i | 0 <= i < |entries|
      ensures LinkedAt(h, all, i)
    {
      assert LinkedAt(h, entries, i);
      assert all[..i] == entries[..i];
    }
    assert all[..|entries|] == entries;
    assert LinkedAt(h, all, |entries|) <==> e.prevHash == Tip(entries) && e.entryHash == HashOfEntry(h, e);
  }

  // --- Tamper evidence ---

  /** The newline-joined hash input determines its three parts, whatever the middle one contains. */
  lemma {:induction false} HashInputInjective(p: string, s: string, t: Instant, q: string, r: string, u: Instant)
    requires '\n' !in p && '\n' !in q
    requires HashInput(p, s, t) == HashInput(q, r, u)
    ensures p == q && s == r && t == u
  {
    hide IsoFormat;
    IsoOneLine(t);
    IsoOneLine(u);
    assert HashInput(p, s, t) == p + ['\n'] + (s + ['\n'] + IsoFormat(t));
    assert HashInput(q, r, u) == q + ['\n'] + (r + ['\n'] + IsoFormat(u));
    SplitAtFirst(p, s + ['\n'] + IsoFormat(t), q, r + ['\n'] + IsoFormat(u), '\n');
    SplitAtLast(s, IsoFormat(t), r, IsoFormat(u), '\n');
    IsoInjective(t, u);
  }

  /** The texts hashed along a chain. */
  function Inputs(entries: seq<ChainEntry>): set<string> {
    set e | e in entries :: HashInput(e.prevHash, e.sha256, e.capturedAt)
  }

  /** No two of the hashed texts collide, and none of them hashes to the genesis value. */
  ghost predicate CollisionFreeOn(h: Hashing, inputs: set<string>) {
    && (forall s, t | s in inputs && t in inputs && h.ofText(s) == h.ofText(t) :: s == t)
    && (forall s | s in inputs :: h.ofText(s) != GENESIS_PREV_HASH)
  }

  /** Same record up to what the hash does not cover. */
  predicate SameRecord(a: ChainEntry, b: ChainEntry) {
    a.sha256 == b.sha256 && a.capturedAt == b.capturedAt && a.prevHash == b.prevHash && a.entryHash == b.entryHash
  }

  /** The previous hash of a linked entry holds no newline. */
  lemma {:induction false} TipOneLine(h: Hashing, entries: seq<ChainEntry>)
    requires HexDigests(h) && Linked(h, entries)
    ensures '\n' !in Tip(entries)
  {
    hide Pad;
    if entries != [] {
      assert LinkedAt(h, entries, |entries| - 1);
    }
  }

  /** Publishing only the last entry_hash of a day commits to the whole day: two accepted chains with the same
      tip have the same length and agree on every record. */
  lemma {:induction false} TamperEvident(h: Hashing, a: seq<ChainEntry>, b: seq<ChainEntry>)
    requires HexDigests(h) && CollisionFreeOn(h, Inputs(a) + Inputs(b))
    requires Linked(h, a) && Linked(h, b) && Tip(a) == Tip(b)
    ensures |a| == |b| && forall i | 0 <= i < |a| :: SameRecord(a[i], b[i])
  {
    hide CollisionFreeOn, Inputs, Linked, HexDigests;
    SameTipSameChain(h, a, b, Inputs(a) + Inputs(b));
  }

  lemma {:induction false} SameTipSameChain(h: Hashing, a: seq<ChainEntry>, b: seq<ChainEntry>, inputs: set<string>)
    requires HexDigests(h) && CollisionFreeOn(h, inputs) && Inputs(a) <= inputs && Inputs(b) <= inputs
    requires Linked(h, a) && Linked(h, b) && Tip(a) == Tip(b)
    ensures |a| == |b| && forall i | 0 <= i < |a| :: SameRecord(a[i], b[i])
    decreases |a|
  {
    hide CollisionFreeOn, HexDigests, HashOfEntry, Inputs, Linked, LinkedAt, Pad;
    if a != [] && b != [] {
      LastRecordAgrees(h, a, b, inputs);
      var m := |a| - 1;
      var n := |b| - 1;
      DropLast(h, a);
      DropLast(h, b);
      SameTipSameChain(h, a[..m], b[..n], inputs);
      assert forall i | 0 <= i < m :: SameRecord(a[..m][i], b[..n][i]);
    } else if a != [] {
      NotGenesis(h, a, inputs);
    } else if b != [] {
      NotGenesis(h, b, inputs);
    }
  }

  lemma {:induction false} DropLast(h: Hashing, a: seq<ChainEntry>)
    requires a != [] && Linked(h, a)
    ensures var front := a[..|a| - 1];
            Linked(h, front) && Inputs(front) <= Inputs(a) && a[|a| - 1].prevHash == Tip(front)
  {
    PrefixLinked(h, a, |a| - 1);
    assert LinkedAt(h, a, |a| - 1);
  }

  lemma {:induction false} NotGenesis(h: Hashing, a: seq<ChainEntry>, inputs: set<string>)
    requires a != [] && Linked(h, a) && Inputs(a) <= inputs && CollisionFreeOn(h, inputs)
    ensures Tip(a) != GENESIS_PREV_HASH
  {
    hide Pad;
    var e := a[|a| - 1];
    assert LinkedAt(h, a, |a| - 1);
    assert HashInput(e.prevHash, e.sha256, e.capturedAt) in Inputs(a);
  }

  lemma {:induction false} LastRecordAgrees(h: Hashing, a: seq<ChainEntry>, b: seq<ChainEntry>, inputs: set<string>)
    requires HexDigests(h) && CollisionFreeOn(h, inputs) && Inputs(a) <= inputs && Inputs(b) <= inputs
    requires Linked(h, a) && Linked(h, b) && a != [] && b != [] && Tip(a) == Tip(b)
    ensures SameRecord(a[|a| - 1], b[|b| - 1])
  {
    hide Pad, HexDigests;
    var d, e := a[|a| - 1], b[|b| - 1];
    assert LinkedAt(h, a, |a| - 1) && LinkedAt(h, b, |b| - 1);
    assert HashInput(d.prevHash, d.sha256, d.capturedAt) in Inputs(a);
    assert HashInput(e.prevHash, e.sha256, e.capturedAt) in Inputs(b);
    DropLast(h, a);
    DropLast(h, b);
    TipOneLine(h, a[..|a| - 1]);
    TipOneLine(h, b[..|b| - 1]);
    HashInputInjective(d.prevHash, d.sha256, d.capturedAt, e.prevHash, e.sha256, e.capturedAt);
  }
}
