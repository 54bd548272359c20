/** TAK protocol framing: magic byte, varint length, magic byte, payload. */
module CotPbFraming {
  import opened Bits
  import opened Seqs

  const MAGIC: byte := 0xBF
  /** The decoder gives up when the shift passes this value, so a varint has at most six bytes. */
  const MAX_SHIFT := 35
  const MAX_VARINT := 6

  datatype FramingError = BadLeadingMagic(got: byte) | VarintTooLong | BadSecondMagic(got: byte)

  datatype Decoded =
    | Incomplete
    | Frame(payload: seq<byte>, consumed: nat)
    | Malformed(error: FramingError)

  // --- What a frame is, independently of how it is read or written ---

  /** Every byte but the last carries the continuation bit. */
  predicate IsVarint(v: seq<byte>) {
    |v| > 0 && v[|v| - 1] < 128 && forall k | 0 <= k < |v| - 1 :: v[k] >= 128
  }

  /** Little-endian base-128 value of a group of bytes. */
  function VarintValue(v: seq<byte>): nat {
    if v == [] then 0 else v[0] % 128 + 128 * VarintValue(v[1..])
  }

  function Framed(v: seq<byte>, payload: seq<byte>): seq<byte> {
    [MAGIC] + v + [MAGIC] + payload
  }

  /** v is a varint, short enough for the decoder, that announces exactly this payload. */
  predicate Announces(v: seq<byte>, payload: seq<byte>) {
    IsVarint(v) && |v| <= MAX_VARINT && VarintValue(v) == |payload|
  }

  ghost predicate IsFrameOf(f: seq<byte>, payload: seq<byte>) {
    exists v :: Announces(v, payload) && f == Framed(v, payload)
  }

  // --- Encoding ---

  function EncodeVarint(n: nat): (v: seq<byte>)
    ensures IsVarint(v) && VarintValue(v) == n
  {
    if n < 128 then [n]
    else
      var rest := EncodeVarint(n / 128);
      var v := [n % 128 + 128] + rest;
      assert v[1..] == rest;
      v
  }

  function Encode(payload: seq<byte>): (f: seq<byte>) {
    Framed(EncodeVarint(|payload|), payload)
  }

  /** `b = n & 0x7F; n >>= 7`, and the byte with its continuation bit `b | 0x80`. */
  method SplitSevenBits(n: nat) returns (b: byte, continued: byte, rest: nat)
    ensures b == n % 128 && continued == n % 128 + 128 && rest == n / 128
  {
    SevenBits(n);
    b, rest := And(n, 0x7F), Shr(n, 7);
    continued := Or(b, 0x80);
  }

  /** encode_frame: grows a bytearray seven bits of the length at a time. */
  method EncodeFrame(payload: seq<byte>) returns (out: seq<byte>)
    ensures out == Encode(payload)
  {
    hide IsVarint, VarintValue;
    out := [MAGIC];
    var n: nat := |payload|;
    ghost var digits: seq<byte> := [];
    while true
      invariant out == [MAGIC] + digits
      invariant digits + EncodeVarint(n) == EncodeVarint(|payload|)
      decreases n
    {
      EncodeStep(digits, n);
      var b, continued, rest := SplitSevenBits(n);
      if rest != 0 {
        out, digits := out + [continued], digits + [continued];
        n := rest;
      } else {
        out, digits := out + [b], digits + [b];
        break;
      }
    }
    out := out + [MAGIC];
    out := out + payload;
  }

  lemma {:induction false} EncodeStep(digits: seq<byte>, n: nat)
    ensures n < 128 ==> digits + EncodeVarint(n) == digits + [n]
    ensures n >= 128 ==> digits + EncodeVarint(n) == (digits + [n % 128 + 128]) + EncodeVarint(n / 128)
  {
  }

  /** The bit operations of one encoding step, in arithmetic. */
  lemma {:induction false} SevenBits(n: nat)
    ensures And(n, 0x7F) == n % 128 && Shr(n, 7) == n / 128
    ensures Or(n % 128, 0x80) == n % 128 + 128
  {
    hide And, Or, Shl, Shr, Low;
    SplitSeven(n);
    MaskIsLow(n, 7);
    OrIsAddition(n % 128, 1, 7);
    ShlAdds(0, 0, 7);
  }

  // --- Decoding ---

  /** How many leading bytes carry the continuation bit. */
  function ContinuationRun(s: seq<byte>): (n: nat)
    ensures n <= |s|
    ensures forall k | 0 <= k < n :: s[k] >= 128
    ensures n < |s| ==> s[n] < 128
  {
    if s == [] || s[0] < 128 then 0 else 1 + ContinuationRun(s[1..])
  }

  function Decode(buf: seq<byte>): (r: Decoded)
    ensures r.Frame? ==> 0 < r.consumed <= |buf|
  {
    if |buf| < 1 then Incomplete
    else if buf[0] != MAGIC then Malformed(BadLeadingMagic(buf[0]))
    else
      var n := ContinuationRun(buf[1..]);
      var i := n + 2;
      if n >= MAX_VARINT then Malformed(VarintTooLong)
      else if i >= |buf| then Incomplete
      else if buf[i] != MAGIC then Malformed(BadSecondMagic(buf[i]))
      else
        var length := VarintValue(buf[1..i]);
        if |buf| < i + 1 + length then Incomplete
        else Frame(buf[i + 1..i + 1 + length], i + 1 + length)
  }

  /** `length |= (b & 0x7F) << shift`, and whether `b & 0x80` is zero. */
  method AddDigit(length: nat, b: byte, shift: nat) returns (sum: nat, last: bool)
    requires length < Pow2(shift)
    ensures sum == length + Shl(b % 128, shift)
    ensures last <==> b < 128
  {
    SevenBits(b);
    ContinuationBit(b);
    OrIsAddition(length, b % 128, shift);
    sum := Or(length, Shl(And(b, 0x7F), shift));
    last := And(b, 0x80) == 0;
  }

  /** try_decode_frame: the same answer, by the loop over length, shift and i. */
  method TryDecodeFrame(buf: seq<byte>) returns (r: Decoded)
    ensures r == Decode(buf)
  {
    hide VarintValue, IsVarint, Shl, Pow2;
    EmptyVarint(buf);
    if |buf| < 1 {
      return Incomplete;
    }
    if buf[0] != MAGIC {
      return Malformed(BadLeadingMagic(buf[0]));
    }
    var length, shift, i := 0, 0, 1;
    while true
      invariant 1 <= i <= |buf| && i <= MAX_VARINT && shift == 7 * (i - 1)
      invariant forall k | 1 <= k < i :: buf[k] >= 128
      invariant length == VarintValue(buf[1..i]) < Pow2(shift)
      decreases |buf| - i
    {
      if i >= |buf| {
        RunIs(buf[1..], i - 1);
        return Incomplete;
      }
      var b := buf[i];
      i := i + 1;
      var last;
      NextDigit(buf, i - 1);
      length, last := AddDigit(length, b, shift);
      if last {
        break;
      }
      shift := shift + 7;
      if shift > MAX_SHIFT {
        RunIs(buf[1..], i - 1);
        return Malformed(VarintTooLong);
      }
    }
    RunIs(buf[1..], i - 2);
    if i >= |buf| {
      return Incomplete;
    }
    if buf[i] != MAGIC {
      return Malformed(BadSecondMagic(buf[i]));
    }
    i := i + 1;
    if |buf| < i + length {
      return Incomplete;
    }
    return Frame(buf[i..i + length], i + length);
  }

  lemma {:induction false} EmptyVarint(buf: seq<byte>)
    ensures |buf| >= 1 ==> VarintValue(buf[1..1]) == 0 < Pow2(0)
  {
  }

  lemma {:induction false} NextDigit(buf: seq<byte>, i: nat)
    requires 1 <= i < |buf|
    ensures VarintValue(buf[1..i + 1]) == VarintValue(buf[1..i]) + Shl(buf[i] % 128, 7 * (i - 1))
    ensures VarintValue(buf[1..i + 1]) < Pow2(7 * i)
  {
    assert buf[1..i + 1] == buf[1..i] + [buf[i]];
    AppendDigit(buf[1..i], buf[i]);
    AppendDigit(buf[1..i + 1], 0);
  }

  lemma {:induction false} ContinuationBit(b: byte)
    ensures And(b, 0x80) == 0 <==> b < 128
  {
    hide And, Shr, Low;
    SplitSeven(b);
    SingleBit(b, 7);
    SevenPlaces(b / 128, 0);
  }

  /** The run length is determined by what surrounds it. */
  lemma {:induction false} RunIs(s: seq<byte>, n: nat)
    requires n <= |s| && forall k | 0 <= k < n :: s[k] >= 128
    ensures ContinuationRun(s) >= n
    ensures n == |s| || s[n] < 128 ==> ContinuationRun(s) == n
  {
    if n > 0 {
      RunIs(s[1..], n - 1);
    }
  }

  lemma {:induction false} AppendDigit(v: seq<byte>, b: byte)
    ensures VarintValue(v + [b]) == VarintValue(v) + Shl(b % 128, 7 * |v|)
    ensures VarintValue(v) < Pow2(7 * |v|)
  {
    if v == [] {
      assert VarintValue([b]) == b % 128 + 128 * VarintValue([]);
    } else {
      hide Shl, Pow2;
      AppendDigit(v[1..], b);
      assert (v + [b])[1..] == v[1..] + [b];
      SevenPlaces(b % 128, 7 * |v[1..]|);
    }
  }

  // --- What the decoder accepts ---

  /** Reading a well-formed frame, whatever follows it. */
  lemma {:induction false} DecodeReadsFrame(v: seq<byte>, payload: seq<byte>, suffix: seq<byte>)
    requires Announces(v, payload)
    ensures Decode(Framed(v, payload) + suffix) == Frame(payload, |Framed(v, payload)|)
  {
    var buf := Framed(v, payload) + suffix;
    assert forall k | 0 <= k < |v| :: buf[1..][k] == v[k];
    RunIs(buf[1..], |v| - 1);
    assert buf[1..|v| + 1] == v;
    assert buf[|v| + 2..|v| + 2 + |payload|] == payload;
  }

  /** What the decoder reads is a well-formed frame. */
  lemma {:induction false} DecodedIsFrame(buf: seq<byte>)
    requires Decode(buf).Frame?
    ensures IsFrameOf(buf[..Decode(buf).consumed], Decode(buf).payload)
  {
    var Frame(payload, k) := Decode(buf);
    var n := ContinuationRun(buf[1..]);
    var v := buf[1..n + 2];
    assert forall j | 0 <= j < |v| :: v[j] == buf[1..][j];
    assert Announces(v, payload);
    assert buf[..k] == Framed(v, payload);
  }

  /** A frame is decoded exactly when the buffer starts with one. */
  lemma {:induction false} DecodeFrameIff(buf: seq<byte>, payload: seq<byte>, k: nat)
    ensures Decode(buf) == Frame(payload, k) <==> k <= |buf| && IsFrameOf(buf[..k], payload)
  {
    if Decode(buf) == Frame(payload, k) {
      DecodedIsFrame(buf);
    }
    if k <= |buf| && IsFrameOf(buf[..k], payload) {
      var v :| Announces(v, payload) && buf[..k] == Framed(v, payload);
      DecodeReadsFrame(v, payload, buf[k..]);
      assert buf == Framed(v, payload) + buf[k..];
    }
  }

  /** A decoded frame, or an error, survives any extension of the buffer. */
  lemma {:induction false} DecodeStable(buf: seq<byte>, more: seq<byte>)
    requires !Decode(buf).Incomplete?
    ensures Decode(buf + more) == Decode(buf)
  {
    if Decode(buf).Frame? {
      var k := Decode(buf).consumed;
      DecodedIsFrame(buf);
      assert (buf + more)[..k] == buf[..k];
      DecodeFrameIff(buf + more, Decode(buf).payload, k);
    } else if buf[0] == MAGIC {
      var n := ContinuationRun(buf[1..]);
      assert forall k | 0 <= k < |buf| - 1 :: (buf + more)[1..][k] == buf[1..][k];
      RunIs((buf + more)[1..], n);
    }
  }

  /** Which error is raised: by the first byte, by six continuation bytes, or by the byte behind a complete varint. */
  lemma {:induction false} MalformedIff(buf: seq<byte>, e: FramingError)
    ensures Decode(buf) == Malformed(e) <==>
            && buf != []
            && match e
               case BadLeadingMagic(b) => b == buf[0] != 0xBF
               case VarintTooLong =>
                 buf[0] == 0xBF && |buf| >= 7 && forall k | 1 <= k < 7 :: buf[k] >= 128
               case BadSecondMagic(b) =>
                 buf[0] == 0xBF && exists i | 2 <= i <= 7 && i < |buf| :: IsVarint(buf[1..i]) && b == buf[i] != 0xBF
  {
    hide IsVarint, ContinuationRun, VarintValue;
    if buf != [] {
      var n := ContinuationRun(buf[1..]);
      SixContinued(buf);
      forall i | 2 <= i <= |buf|
        ensures IsVarint(buf[1..i]) <==> n == i - 2
      {
        VarintIsRun(buf, i);
      }
    }
  }

  lemma {:induction false} VarintIsRun(buf: seq<byte>, i: nat)
    requires 2 <= i <= |buf|
    ensures IsVarint(buf[1..i]) <==> ContinuationRun(buf[1..]) == i - 2
  {
    var s := buf[1..];
    assert buf[1..i] == s[..i - 1];
    var n := ContinuationRun(s);
    if IsVarint(s[..i - 1]) {
      assert forall k | 0 <= k < i - 2 :: s[..i - 1][k] == s[k];
      RunIs(s, i - 2);
    }
  }

  lemma {:induction false} SixContinued(buf: seq<byte>)
    requires buf != []
    ensures ContinuationRun(buf[1..]) >= 6 <==> |buf| >= 7 && forall k | 1 <= k < 7 :: buf[k] >= 128
  {
    var s := buf[1..];
    assert forall k | 0 <= k < |s| :: s[k] == buf[k + 1];
    if |buf| >= 7 && forall k | 1 <= k < 7 :: buf[k] >= 128 {
      RunIs(s, 6);
    }
    if ContinuationRun(s) >= 6 {
      assert forall k | 1 <= k < 7 :: buf[k] == s[k - 1];
    }
  }

  function Zeros(n: nat): (v: seq<byte>)
    ensures |v| == n
  {
    seq(n, i => 0)
  }

  /** Waiting is never in vain: an incomplete buffer is a proper prefix of some frame. */
  lemma {:induction false} IncompleteExtends(buf: seq<byte>) returns (f: seq<byte>, payload: seq<byte>)
    requires Decode(buf).Incomplete?
    ensures IsFrameOf(f, payload) && buf < f
  {
    if buf == [] {
      f, payload := Encode([]), [];
      assert Announces(EncodeVarint(0), []);
      return;
    }
    hide VarintValue, EncodeVarint;
    var n := ContinuationRun(buf[1..]);
    var v := if n + 1 >= |buf| then buf[1..] + [0] else buf[1..n + 2];
    assert forall j | 0 <= j < n :: v[j] == buf[1..][j];
    assert |v| == n + 1 && v[n] < 128;
    var length := VarintValue(v);
    var got := if n + 3 <= |buf| then buf[n + 3..] else [];
    assert |got| <= length;
    payload := got + Zeros(length - |got|);
    f := Framed(v, payload);
    assert Announces(v, payload);
    if n + 3 <= |buf| {
      assert buf == [MAGIC] + v + [MAGIC] + got;
      assert f == buf + Zeros(length - |got|);
    } else if n + 2 == |buf| {
      assert buf == [MAGIC] + v;
    } else {
      assert buf + [0] == [MAGIC] + v;
    }
    assert |buf| < |f| && f[..|buf|] == buf;
  }

  /** Nothing is read, and no error is raised, exactly while the buffer can still grow into a frame. */
  lemma {:induction false} IncompleteIff(buf: seq<byte>)
    ensures Decode(buf).Incomplete? <==> exists f, payload :: IsFrameOf(f, payload) && buf < f
  {
    if Decode(buf).Incomplete? {
      var f, payload := IncompleteExtends(buf);
    }
    if f, payload :| IsFrameOf(f, payload) && buf < f {
      assert f[..|f|] == f;
      DecodeFrameIff(f, payload, |f|);
      assert buf + f[|buf|..] == f;
      if !Decode(buf).Incomplete? {
        DecodeStable(buf, f[|buf|..]);
      }
    }
  }

  // --- Encoder against decoder ---

  lemma {:induction false} VarintLength(n: nat, k: nat)
    requires k > 0
    ensures |EncodeVarint(n)| <= k <==> n < Pow2(7 * k)
    decreases k
  {
    hide Pow2, Shl, IsVarint, VarintValue;
    SevenMore(k - 1, n);
    if n >= 128 && k > 1 {
      VarintLength(n / 128, k - 1);
    }
  }

  lemma {:induction false} SevenMore(k: nat, n: nat)
    ensures n < Pow2(7 * (k + 1)) <==> n / 128 < Pow2(7 * k)
    ensures k == 0 ==> Pow2(7 * k) == 1
    ensures n < 128 ==> n < Pow2(7 * (k + 1))
  {
    SevenPlaces(0, 7 * k);
    var p := Pow2(7 * k);
    assert n < 128 * p <==> n / 128 < p;
  }

  /** Exact bound of the codec: 2^42 bytes. Below it every frame decodes, whatever follows;
      from it on every frame is refused. */
  lemma {:induction false} RoundTrip(payload: seq<byte>, suffix: seq<byte>)
    ensures Decode(Encode(payload) + suffix) ==
            if |payload| < Pow2(42) then Frame(payload, |Encode(payload)|) else Malformed(VarintTooLong)
  {
    hide VarintValue, EncodeVarint, Pow2;
    var v := EncodeVarint(|payload|);
    VarintLength(|payload|, MAX_VARINT);
    if |payload| < Pow2(42) {
      DecodeReadsFrame(v, payload, suffix);
    } else {
      var buf := Encode(payload) + suffix;
      assert forall k | 0 <= k < |v| :: buf[1..][k] == v[k];
      RunIs(buf[1..], |v| - 1);
    }
  }

  /** Every proper prefix of an encoded frame is waited on. */
  lemma {:induction false} PrefixIncomplete(payload: seq<byte>, n: nat)
    requires |payload| < Pow2(42) && n < |Encode(payload)|
    ensures Decode(Encode(payload)[..n]) == Incomplete
  {
    VarintLength(|payload|, MAX_VARINT);
    assert Announces(EncodeVarint(|payload|), payload);
    var f := Encode(payload);
    assert IsFrameOf(f, payload) && f[..n] < f;
    IncompleteIff(f[..n]);
  }

  /** Base-128 digits without padding are unique, and any other group for the number is longer. */
  lemma {:induction false} ShortestVarint(v: seq<byte>)
    requires IsVarint(v)
    ensures |EncodeVarint(VarintValue(v))| <= |v|
    ensures |EncodeVarint(VarintValue(v))| == |v| ==> v == EncodeVarint(VarintValue(v))
  {
    hide EncodeVarint;
    if |v| == 1 {
      assert VarintValue(v) == v[0] + 128 * VarintValue(v[1..]) && VarintValue(v[1..]) == 0;
      EncodeOneDigit(v[0]);
    } else {
      assert v[0] >= 128;
      ShortestVarint(v[1..]);
      EncodeNextDigit(v[0], VarintValue(v[1..]));
    }
  }

  lemma {:induction false} EncodeOneDigit(b: byte)
    requires b < 128
    ensures EncodeVarint(b) == [b]
  {
  }

  lemma {:induction false} EncodeNextDigit(b: byte, rest: nat)
    requires b >= 128
    ensures |EncodeVarint(b % 128 + 128 * rest)| <= 1 + |EncodeVarint(rest)|
    ensures |EncodeVarint(b % 128 + 128 * rest)| == 1 + |EncodeVarint(rest)| ==>
              EncodeVarint(b % 128 + 128 * rest) == [b] + EncodeVarint(rest)
  {
    var n := b % 128 + 128 * rest;
    assert n % 128 == b - 128 && n / 128 == rest;
  }

  /** The encoder writes the one shortest frame that decodes to the payload. */
  lemma {:induction false} EncodeIsShortest(f: seq<byte>, payload: seq<byte>)
    requires Decode(f) == Frame(payload, |f|)
    ensures |Encode(payload)| <= |f|
    ensures |Encode(payload)| == |f| ==> f == Encode(payload)
  {
    DecodedIsFrame(f);
    assert f[..|f|] == f;
    var v :| Announces(v, payload) && f == Framed(v, payload);
    ShortestVarint(v);
  }
}
