/** UUID version 7: a millisecond timestamp over random bits (section 5.7 of RFC 9562). */
module Uuid7 {
  import opened Bits
  import opened Seqs

  const VERSION := 7
  const VARIANT := 2

  /** The five fields, shifted into place and ORed together. */
  function Pack(ts: nat, randA: nat, randB: nat): nat {
    Or(Or(Or(Or(Shl(ts, 80), Shl(VERSION, 76)), Shl(randA, 64)), Shl(VARIANT, 62)), randB)
  }

  /** uuid7, given the clock reading in milliseconds and the random bytes as numbers. */
  function Generate(clockMs: nat, random2: nat, random8: nat): nat {
    Pack(And(clockMs, 0xFFFF_FFFF_FFFF), And(random2, 0x0FFF), And(random8, 0x3FFF_FFFF_FFFF_FFFF))
  }

  /** The version the standard library reports: only for the RFC variant, which is bit 63 set and bit 62 clear. */
  function Version(uuid: nat): Option<nat> {
    if And(uuid, Pow2(63)) != 0 && And(uuid, Pow2(62)) == 0 then Some(And(Shr(uuid, 76), 0xF)) else None
  }

  /** uuid7_timestamp_ms; None where it raises ValueError. */
  function TimestampMs(uuid: nat): Option<nat> {
    if Version(uuid) == Some(7) then Some(Shr(uuid, 80)) else None
  }

  predicate Fits(ts: nat, randA: nat, randB: nat) {
    ts < Pow2(48) && randA < Pow2(12) && randB < Pow2(62)
  }

  // --- Packing is addition ---

  /** Putting a field of w bits behind a higher part. */
  lemma {:induction false} PushField(high: nat, w: nat, field: nat, k: nat)
    requires field < Pow2(w)
    ensures Or(Shl(high, k + w), Shl(field, k)) == Shl(high, k + w) + Shl(field, k) == Shl(Shl(high, w) + field, k)
  {
    ShlMonotone(field, Pow2(w), k);
    ShlAdds(1, 0, w);
    ShlTwice(1, w, k);
    ShlAdds(1, 0, w + k);
    assert Shl(Pow2(w), k) == Pow2(w + k);
    assert k + w == w + k;
    HighOrLow(high, k + w, Shl(field, k));
    ShlTwice(high, w, k);
    ShlAdds(Shl(high, w), field, k);
  }

  /** The value built up field by field. */
  function Nested(ts: nat, randA: nat, randB: nat): nat {
    Shl(Shl(Shl(Shl(ts, 4) + VERSION, 12) + randA, 2) + VARIANT, 62) + randB
  }

  /** No field reaches into its neighbour: the OR is a sum of the shifted fields, below 2^128. */
  lemma {:induction false} PackIsSum(ts: nat, randA: nat, randB: nat)
    requires Fits(ts, randA, randB)
    ensures Pack(ts, randA, randB) == Shl(ts, 80) + Shl(VERSION, 76) + Shl(randA, 64) + Shl(VARIANT, 62) + randB
    ensures Pack(ts, randA, randB) == Nested(ts, randA, randB) < Pow2(128)
  {
    hide Or, Shl, Pow2;
    SmallPowers();
    var y1 := Shl(ts, 4) + VERSION;
    var y2 := Shl(y1, 12) + randA;
    var y3 := Shl(y2, 2) + VARIANT;
    PushField(ts, 4, VERSION, 76);
    PushField(y1, 12, randA, 64);
    PushField(y2, 2, VARIANT, 62);
    HighOrLow(y3, 62, randB);
    NestedBelow(ts, randA, randB);
  }

  lemma {:induction false} NestedBelow(ts: nat, randA: nat, randB: nat)
    requires Fits(ts, randA, randB)
    ensures Nested(ts, randA, randB) < Pow2(128)
  {
    hide Shl, Pow2;
    SmallPowers();
    var y1 := Shl(ts, 4) + VERSION;
    var y2 := Shl(y1, 12) + randA;
    var y3 := Shl(y2, 2) + VARIANT;
    FieldBelow(ts, 48, 4, VERSION);
    FieldBelow(y1, 52, 12, randA);
    FieldBelow(y2, 64, 2, VARIANT);
    FieldBelow(y3, 66, 62, randB);
  }

  lemma {:induction false} FieldBelow(high: nat, h: nat, w: nat, field: nat)
    requires high < Pow2(h)
    requires field < Pow2(w)
    ensures Shl(high, w) + field < Pow2(h + w)
  {
    ShlMonotone(high, Pow2(h), w);
    ShlAdds(1, 0, h);
    ShlTwice(1, h, w);
    ShlAdds(1, 0, h + w);
  }

  // --- Reading the fields back ---

  /** Every field reads back: the variant bits are 10, the version is 7, and the timestamp is the one packed. */
  lemma {:induction false} FieldsReadBack(ts: nat, randA: nat, randB: nat)
    requires Fits(ts, randA, randB)
    ensures var uuid := Pack(ts, randA, randB);
            && Version(uuid) == Some(7)
            && TimestampMs(uuid) == Some(ts)
            && Low(Shr(uuid, 64), 12) == randA
            && Low(uuid, 62) == randB
  {
    hide Or, And, Low, Pow2, Pack, Shl, Shr;
    var uuid := Pack(ts, randA, randB);
    PackIsSum(ts, randA, randB);
    SmallPowers();
    var y1 := Shl(ts, 4) + VERSION;
    var y2 := Shl(y1, 12) + randA;
    var y3 := Shl(y2, 2) + VARIANT;
    Unpack(y3, 62, randB);
    Unpack(y2, 2, VARIANT);
    Unpack(y1, 12, randA);
    Unpack(ts, 4, VERSION);
    ShrTwice(uuid, 62, 2);
    ShrTwice(uuid, 64, 12);
    ShrTwice(uuid, 76, 4);
    MaskIsLow(Shr(uuid, 76), 4);
    VariantBits(uuid, y2);
  }

  /** A number that reads 10 above its low 62 bits has bit 63 set and bit 62 clear. */
  lemma {:induction false} VariantBits(uuid: nat, high: nat)
    requires Shr(uuid, 62) == Shl(high, 2) + VARIANT
    ensures And(uuid, Pow2(63)) != 0 && And(uuid, Pow2(62)) == 0
  {
    hide And, Pow2;
    SingleBit(uuid, 63);
    SingleBit(uuid, 62);
    ShrTwice(uuid, 62, 1);
    TwoPlaces(high);
    hide Shl;
    assert Shr(Shr(uuid, 62), 1) == Shr(uuid, 62) / 2;
    ShlMonotone(0, 1, 63);
    ShlZero(62);
  }

  lemma {:induction false} TwoPlaces(x: nat)
    ensures Shl(x, 2) == 4 * x
  {
    assert Shl(x, 1) == 2 * x;
  }

  lemma {:induction false} SmallPowers()
    ensures Pow2(0) == 1 && Pow2(2) == 4 && Pow2(4) == 16 && 0 < Pow2(48)
  {
  }

  lemma {:induction false} ShlZero(k: nat)
    ensures Shl(0, k) == 0
  {
    if k > 0 {
      ShlZero(k - 1);
    }
  }

  /** Distinct fields give distinct UUIDs. */
  lemma {:induction false} PackInjective(ts: nat, a: nat, b: nat, ts': nat, a': nat, b': nat)
    requires Fits(ts, a, b) && Fits(ts', a', b') && Pack(ts, a, b) == Pack(ts', a', b')
    ensures ts == ts' && a == a' && b == b'
  {
    hide *;
    FieldsReadBack(ts, a, b);
    FieldsReadBack(ts', a', b');
  }

  /** An earlier millisecond sorts first, whatever the random bits. */
  lemma {:induction false} EarlierSortsFirst(ts: nat, a: nat, b: nat, ts': nat, a': nat, b': nat)
    requires Fits(ts, a, b) && Fits(ts', a', b') && ts < ts'
    ensures Pack(ts, a, b) < Pack(ts', a', b')
  {
    hide Shl, Pack, Or, Pow2;
    PackIsSum(ts, a, b);
    PackIsSum(ts', a', b');
    ShlMonotone(ts, ts', 80);
    TailBelow(a, b);
  }

  lemma {:induction false} TailBelow(a: nat, b: nat)
    requires a < Pow2(12) && b < Pow2(62)
    ensures Shl(VERSION, 76) + Shl(a, 64) + Shl(VARIANT, 62) + b < Pow2(80)
  {
    hide Shl, Pack, Or, Pow2;
    SmallPowers();
    FieldBelow(VERSION, 4, 12, a);
    var y := Shl(VERSION, 12) + a;
    FieldBelow(y, 16, 2, VARIANT);
    FieldBelow(Shl(y, 2) + VARIANT, 18, 62, b);
    ShlTwice(VERSION, 12, 64);
    ShlTwice(y, 2, 62);
    ShlAdds(Shl(VERSION, 12), a, 64);
    ShlAdds(Shl(y, 2), VARIANT, 62);
  }

  // --- The generator ---

  lemma {:induction false} Masks()
    ensures Pow2(12) == 0x1000 && Pow2(48) == 0x1_0000_0000_0000 && Pow2(62) == 0x4000_0000_0000_0000
  {
    hide Pow2;
    SmallPowers();
    EightTimes(0, 2);
    SevenPlaces(0, 5);
    EightTimes(0, 0);
    EightTimes(0, 3);
    SevenPlaces(0, 6);
    SevenPlaces(0, 13);
    SevenPlaces(0, 20);
    SevenPlaces(0, 27);
    SevenPlaces(0, 34);
    SevenPlaces(0, 41);
    SevenPlaces(0, 48);
    SevenPlaces(0, 55);
  }

  /** uuid7 masks its inputs into the fields, so its result is always a version 7 UUID, and the timestamp extracted
      from it is the clock reading modulo 2^48: the reading itself for any clock before the year 10889. The random bits
      are those of its random inputs. */
  lemma {:induction false} GeneratedTimestamp(clockMs: nat, random2: nat, random8: nat)
    ensures var uuid := Generate(clockMs, random2, random8);
            && uuid < Pow2(128)
            && TimestampMs(uuid) == Some(Low(clockMs, 48))
            && (clockMs < Pow2(48) ==> TimestampMs(uuid) == Some(clockMs))
            && Low(Shr(uuid, 64), 12) == Low(random2, 12) && Low(uuid, 62) == Low(random8, 62)
  {
    hide And, Or, Shl, Shr, TimestampMs, Pack, Low, Pow2;
    GeneratedFits(clockMs, random2, random8);
    PackIsSum(Low(clockMs, 48), Low(random2, 12), Low(random8, 62));
    FieldsReadBack(Low(clockMs, 48), Low(random2, 12), Low(random8, 62));
    if clockMs < Pow2(48) {
      HighAndLow(clockMs, 48);
      NoHighPart(clockMs, 48);
    }
  }

  lemma {:induction false} GeneratedFits(clockMs: nat, random2: nat, random8: nat)
    ensures Generate(clockMs, random2, random8) == Pack(Low(clockMs, 48), Low(random2, 12), Low(random8, 62))
    ensures Fits(Low(clockMs, 48), Low(random2, 12), Low(random8, 62))
  {
    hide And, Or, Shl, Low, Pow2;
    Masks();
    MaskIsLow(clockMs, 48);
    MaskIsLow(random2, 12);
    MaskIsLow(random8, 62);
  }

  lemma {:induction false} NoHighPart(a: nat, k: nat)
    requires a < Pow2(k)
    ensures Low(a, k) == a
    decreases k
  {
    if k > 0 {
      NoHighPart(a / 2, k - 1);
    }
  }

  /** UUIDs generated at different milliseconds sort in the order of the clock. */
  lemma {:induction false} GeneratedInOrder(ms: nat, r2: nat, r8: nat, ms': nat, r2': nat, r8': nat)
    requires ms < ms' < Pow2(48)
    ensures Generate(ms, r2, r8) < Generate(ms', r2', r8')
  {
    hide Generate, Pack, Pow2, Low;
    GeneratedFits(ms, r2, r8);
    GeneratedFits(ms', r2', r8');
    NoHighPart(ms, 48);
    NoHighPart(ms', 48);
    EarlierSortsFirst(ms, Low(r2, 12), Low(r8, 62), ms', Low(r2', 12), Low(r8', 62));
  }
}
