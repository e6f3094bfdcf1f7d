/** The base-3 weight codec (kernel/src/ternary.rs). */
module Ternary {
  import opened Common

  const TRITS_PER_WEIGHT := 10
  const WEIGHT_MAX_DIGIT := 59048

  type Trit = t: int | -1 <= t <= 1
  type Digit = d: int | 0 <= d <= 2

  // ---- Base 3 ----

  /** The `n` low base-3 digits of `v`, least significant first. */
  function Digits(v: nat, n: nat): (ds: seq<Digit>)
    ensures |ds| == n
    decreases n
  {
    if n == 0 then [] else [v % 3] + Digits(v / 3, n - 1)
  }

  function Value(ds: seq<Digit>): nat {
    if ds == [] then 0 else (ds[0] as int) + 3 * Value(ds[1..])
  }

  function Pow3(n: nat): (p: nat)
    ensures p > 0
  {
    if n == 0 then 1 else 3 * Pow3(n - 1)
  }

  lemma {:induction false} ValueBound(ds: seq<Digit>)
    ensures Value(ds) < Pow3(|ds|)
  {
    if ds != [] {
      ValueBound(ds[1..]);
    }
  }

  lemma {:induction false} DigitsOfValue(ds: seq<Digit>)
    ensures Digits(Value(ds), |ds|) == ds
  {
    if ds != [] {
      DigitsOfValue(ds[1..]);
      assert Value(ds) % 3 == ds[0] && Value(ds) / 3 == Value(ds[1..]);
    }
  }

  lemma {:induction false} ValueOfDigits(v: nat, n: nat)
    requires v < Pow3(n)
    ensures Value(Digits(v, n)) == v
    decreases n
  {
    if n > 0 {
      ValueOfDigits(v / 3, n - 1);
      assert Digits(v, n)[1..] == Digits(v / 3, n - 1);
    }
  }

  lemma Powers()
    ensures Pow3(5) == 243 && Pow3(10) == 59049
  {
    assert Pow3(4) == 81;
    assert Pow3(7) == 2187;
  }

  // ---- Packing ----

  function ToDigits(ts: seq<Trit>): (ds: seq<Digit>)
    ensures |ds| == |ts|
  {
    seq(|ts|, i requires 0 <= i < |ts| => (ts[i] as int) + 1)
  }

  function ToTrits(ds: seq<Digit>): (ts: seq<Trit>)
    ensures |ts| == |ds|
  {
    seq(|ds|, i requires 0 <= i < |ds| => (ds[i] as int) - 1)
  }

  /** Padding to a multiple of five with the digit of trit 0. */
  function Padding(n: nat): seq<Digit> {
    seq((5 - n % 5) % 5, _ => 1)
  }

  function PackDigits(ds: seq<Digit>): seq<Byte>
    requires |ds| % 5 == 0
  {
    if ds == [] then []
    else
      ValueBound(ds[..5]);
      Powers();
      [Value(ds[..5])] + PackDigits(ds[5..])
  }

  function UnpackDigits(bytes: seq<Byte>): (ds: seq<Digit>)
    ensures |ds| == 5 * |bytes|
  {
    if bytes == [] then [] else Digits(bytes[0], 5) + UnpackDigits(bytes[1..])
  }

  /** Five trits to a byte. */
  function Pack(ts: seq<Trit>): seq<Byte> {
    PackDigits(ToDigits(ts) + Padding(|ts|))
  }

  function Unpack(bytes: seq<Byte>, n: nat): seq<Trit> {
    var ts := ToTrits(UnpackDigits(bytes));
    ts[..Min(|ts|, n)]
  }

  lemma {:induction false} UnpackPackDigits(ds: seq<Digit>)
    requires |ds| % 5 == 0
    ensures UnpackDigits(PackDigits(ds)) == ds
    decreases |ds|
  {
    if ds != [] {
      DigitsOfValue(ds[..5]);
      UnpackPackDigits(ds[5..]);
      assert PackDigits(ds)[1..] == PackDigits(ds[5..]);
      assert ds == ds[..5] + ds[5..];
    }
  }

  /** Unpacking what was packed gives back the trits, whatever their number. */
  lemma UnpackPack(ts: seq<Trit>)
    ensures Unpack(Pack(ts), |ts|) == ts
  {
    var ds := ToDigits(ts) + Padding(|ts|);
    UnpackPackDigits(ds);
    assert forall i :: 0 <= i < |ts| ==> ToTrits(ds)[i] == ts[i];
  }

  lemma {:induction false} PackLength(ds: seq<Digit>)
    requires |ds| % 5 == 0
    ensures |PackDigits(ds)| == |ds| / 5
    decreases |ds|
  {
    if ds != [] {
      PackLength(ds[5..]);
    }
  }

  // ---- Weights ----

  function Clamp(w: real): real {
    if w < 0.0 then 0.0 else if w > 1.0 then 1.0 else w
  }

  /** The nearest of the 59049 levels, halves rounded up. */
  function Level(w: real): (k: nat)
    ensures k <= WEIGHT_MAX_DIGIT
  {
    (Clamp(w) * (WEIGHT_MAX_DIGIT as real) + 0.5).Floor
  }

  function OfLevel(k: nat): real {
    (k as real) / (WEIGHT_MAX_DIGIT as real)
  }

  function Encode(w: real): seq<Byte> {
    Pack(ToTrits(Digits(Level(w), TRITS_PER_WEIGHT)))
  }

  function Decode(bytes: seq<Byte>): real {
    OfLevel(Value(ToDigits(Unpack(bytes, TRITS_PER_WEIGHT))))
  }

  lemma EncodeLength(w: real)
    ensures |Encode(w)| == 2
  {
    hide Level, Digits;
    var ds := ToDigits(ToTrits(Digits(Level(w), TRITS_PER_WEIGHT))) + Padding(TRITS_PER_WEIGHT);
    PackLength(ds);
  }

  lemma {:induction false} DigitsSplit(v: nat, n: nat, m: nat, hi: nat, lo: nat)
    requires v == Pow3(n) * hi + lo && lo < Pow3(n)
    ensures Digits(v, n + m) == Digits(lo, n) + Digits(hi, m)
    decreases n
  {
    hide Pow3, Digits;
    Pow3Step(n);
    if n == 0 {
      SplitNone(v, m);
    } else {
      Pow3Split(v, Pow3(n - 1), hi, lo);
      DigitsSplit(v / 3, n - 1, m, hi, lo / 3);
      DigitsHead(v, n + m);
      DigitsHead(lo, n);
      assert n - 1 + m == n + m - 1;
    }
  }

  lemma SplitNone(v: nat, m: nat)
    ensures Digits(v, m) == Digits(0, 0) + Digits(v, m)
  {
  }

  lemma DigitsHead(v: nat, n: nat)
    requires n > 0
    ensures Digits(v, n) == [v % 3] + Digits(v / 3, n - 1)
  {
  }

  lemma Pow3Step(n: nat)
    ensures Pow3(n) == if n == 0 then 1 else 3 * Pow3(n - 1)
  {
  }

  lemma Pow3Split(v: nat, q: nat, hi: nat, lo: nat)
    requires v == 3 * q * hi + lo && lo < 3 * q
    ensures lo % 3 == v % 3 && lo / 3 < q && v / 3 == q * hi + lo / 3
  {
    assert 3 * q * hi == 3 * (q * hi);
  }

  /** The two bytes of a weight: its level's remainder and quotient by 243. */
  lemma EncodeBytes(w: real)
    ensures Encode(w) == [Level(w) % 243, Level(w) / 243] && Level(w) / 243 <= 243 - 1
    ensures var x := (if w < 0.0 then 0.0 else if w > 1.0 then 1.0 else w) * 59048.0;
            x - 0.5 < Level(w) as real <= x + 0.5
  {
    LevelNearest(w);
    hide Level, Digits, Pow3, Value;
    var v := Level(w);
    var ds := Digits(v, 10);
    Powers();
    DigitsSplit(v, 5, 5, v / 243, v % 243);
    assert ToDigits(ToTrits(ds)) == ds;
    assert Padding(10) == [];
    assert ds + [] == ds;
    var lo, hi := Digits(v % 243, 5), Digits(v / 243, 5);
    ValueOfDigits(v % 243, 5);
    ValueOfDigits(v / 243, 5);
    TwoChunks(lo, hi);
  }

  lemma LevelNearest(w: real)
    ensures Clamp(w) * 59048.0 - 0.5 < Level(w) as real <= Clamp(w) * 59048.0 + 0.5
    ensures Level(w) <= 59048
  {
  }

  lemma TwoChunks(lo: seq<Digit>, hi: seq<Digit>)
    requires |lo| == 5 && |hi| == 5
    ensures PackDigits(lo + hi) == [Value(lo), Value(hi)]
  {
    hide Value;
    assert (lo + hi)[..5] == lo && (lo + hi)[5..] == hi;
    assert hi[..5] == hi && hi[5..] == [];
    assert PackDigits(hi) == [Value(hi)] + PackDigits([]);
  }

  lemma {:induction false} ValueOfLow(v: nat, n: nat, hi: nat, lo: nat)
    requires v == Pow3(n) * hi + lo && lo < Pow3(n)
    ensures Value(Digits(v, n)) == lo
    decreases n
  {
    hide Pow3, Digits;
    Pow3Step(n);
    if n == 0 {
      SplitNone(v, 0);
    } else {
      Pow3Split(v, Pow3(n - 1), hi, lo);
      DigitsHead(v, n);
      ValueOfLow(v / 3, n - 1, hi, lo / 3);
      assert Digits(v, n)[1..] == Digits(v / 3, n - 1);
    }
  }

  lemma {:induction false} ValueConcat(a: seq<Digit>, b: seq<Digit>)
    ensures Value(a + b) == Value(a) + Pow3(|a|) * Value(b)
    decreases |a|
  {
    hide Pow3, Value;
    Pow3Step(|a|);
    if a == [] {
      NoValue();
      assert a + b == b;
    } else {
      assert (a + b)[1..] == a[1..] + b && (a + b)[0] == a[0];
      ValueConcat(a[1..], b);
      ValueHead(a);
      ValueHead(a + b);
      ThreeTimes(Pow3(|a| - 1), Value(b));
    }
  }

  lemma NoValue()
    ensures Value([]) == 0
  {
  }

  lemma ValueHead(ds: seq<Digit>)
    requires ds != []
    ensures Value(ds) == (ds[0] as int) + 3 * Value(ds[1..])
  {
  }

  lemma ThreeTimes(p: nat, v: nat)
    ensures 3 * (p * v) == (3 * p) * v
  {
  }

  /** The value of two bytes, each through its remainder by 243. */
  function TwoByteWeight(b0: Byte, b1: Byte): real {
    (((b0 as int) % 243 + 243 * ((b1 as int) % 243)) as real) / 59048.0
  }

  /** Any two bytes decode, the first as the low part. */
  lemma DecodeBytes(b0: Byte, b1: Byte)
    ensures Decode([b0, b1]) == TwoByteWeight(b0, b1)
  {
    hide Digits, Pow3, Value;
    var lo, hi := Digits(b0, 5), Digits(b1, 5);
    Powers();
    ValueOfLow(b0, 5, b0 / 243, b0 % 243);
    ValueOfLow(b1, 5, b1 / 243, b1 % 243);
    ValueConcat(lo, hi);
    TwoUnpacked(b0, b1);
    var ds := lo + hi;
    assert ToDigits(ToTrits(ds)) == ds && ToTrits(ds)[..10] == ToTrits(ds);
  }

  lemma TwoUnpacked(b0: Byte, b1: Byte)
    ensures UnpackDigits([b0, b1]) == Digits(b0, 5) + Digits(b1, 5)
  {
    hide Digits;
    assert [b0, b1][1..] == [b1] && [b1][1..] == [];
    assert UnpackDigits([b1]) == Digits(b1, 5) + UnpackDigits([]);
  }

  /** Encoding and decoding gives the nearest level. */
  lemma DecodeEncode(w: real)
    ensures Decode(Encode(w)) == OfLevel(Level(w))
  {
    hide Level, Digits, OfLevel, Pack, Unpack, Pow3;
    var ds := Digits(Level(w), TRITS_PER_WEIGHT);
    UnpackPack(ToTrits(ds));
    assert ToDigits(ToTrits(ds)) == ds;
    Powers();
    ValueOfDigits(Level(w), TRITS_PER_WEIGHT);
  }

  /** A level is its own nearest level. */
  lemma LevelOfLevel(k: nat)
    requires k <= WEIGHT_MAX_DIGIT
    ensures Level(OfLevel(k)) == k
  {
    assert Clamp(OfLevel(k)) == OfLevel(k);
    assert OfLevel(k) * 59048.0 == k as real;
  }

  /** Every one of the 59049 levels survives encoding and decoding exactly. */
  lemma LevelsExact(k: nat)
    requires k <= WEIGHT_MAX_DIGIT
    ensures Decode(Encode(OfLevel(k))) == OfLevel(k)
  {
    hide Level, OfLevel, Encode, Decode;
    DecodeEncode(OfLevel(k));
    LevelOfLevel(k);
  }

  /** Any weight comes back within half a level of its clamped value. */
  lemma WithinHalfLevel(w: real)
    ensures -1.0 / 118096.0 <= Decode(Encode(w)) - Clamp(w) <= 1.0 / 118096.0
  {
    hide Encode, Decode;
    DecodeEncode(w);
    var x := Clamp(w) * 59048.0;
    var k := Level(w);
    assert x - 0.5 <= k as real <= x + 0.5;
    assert OfLevel(k) - Clamp(w) == ((k as real) - x) / 59048.0;
  }

  /** Encoding a decoded weight gives the same bytes. */
  lemma EncodeAgain(w: real)
    ensures Encode(Decode(Encode(w))) == Encode(w)
  {
    hide Decode, OfLevel, Level, Digits, Pack;
    DecodeEncode(w);
    LevelOfLevel(Level(w));
  }

  // ---- As the kernel computes it ----

  /** Digits of the trits, padded to a multiple of five. */
  method PadDigits(ts: seq<Trit>) returns (digits: seq<Digit>)
    ensures digits == ToDigits(ts) + Padding(|ts|)
  {
    digits := ToDigits(ts);
    ghost var n := (5 - |ts| % 5) % 5;
    while |digits| % 5 != 0
      invariant |ts| <= |digits| <= |ts| + n
      invariant digits == ToDigits(ts) + Padding(|ts|)[..|digits| - |ts|]
      decreases |ts| + n - |digits|
    {
      digits := digits + [1];
    }
  }

  method PackTernary(ts: seq<Trit>) returns (packed: seq<Byte>)
    ensures packed == Pack(ts)
  {
    hide PackDigits, Value, Padding, ToDigits;
    var digits := PadDigits(ts);
    PadsToFive(ts);
    NoDigits();
    packed := [];
    var i := 0;
    assert digits[0..] == digits;
    while i < |digits|
      invariant 0 <= i <= |digits| && i % 5 == 0
      invariant packed + PackDigits(digits[i..]) == PackDigits(digits)
    {
      var c := digits[i..i + 5];
      ChunkValue(c);
      ChunkStep(digits, i);
      packed := packed + [(c[0] as int) + 3 * (c[1] as int) + 9 * (c[2] as int) + 27 * (c[3] as int) + 81 * (c[4] as int)];
      i := i + 5;
    }
    assert digits[i..] == [];
  }

  lemma PadsToFive(ts: seq<Trit>)
    ensures |ToDigits(ts) + Padding(|ts|)| % 5 == 0
  {
  }

  lemma NoDigits()
    ensures PackDigits([]) == []
  {
  }

  lemma ChunkStep(digits: seq<Digit>, i: nat)
    requires i + 5 <= |digits| && i % 5 == 0 && |digits| % 5 == 0
    ensures Value(digits[i..i + 5]) < 256
    ensures PackDigits(digits[i..]) == [Value(digits[i..i + 5])] + PackDigits(digits[i + 5..])
  {
    assert digits[i..][..5] == digits[i..i + 5] && digits[i..][5..] == digits[i + 5..];
    ValueBound(digits[i..i + 5]);
    Powers();
  }

  lemma ChunkValue(c: seq<Digit>)
    requires |c| == 5
    ensures Value(c) == (c[0] as int) + 3 * (c[1] as int) + 9 * (c[2] as int) + 27 * (c[3] as int) + 81 * (c[4] as int)
  {
    assert c[1..][1..] == c[2..] && c[2..][1..] == c[3..] && c[3..][1..] == c[4..] && c[4..][1..] == [];
    assert Value(c[4..]) == c[4];
    assert Value(c[3..]) == c[3] + 3 * Value(c[4..]);
    assert Value(c[2..]) == c[2] + 3 * Value(c[3..]);
    assert Value(c[1..]) == c[1] + 3 * Value(c[2..]);
  }

  method UnpackTernary(packed: seq<Byte>, n: nat) returns (ts: seq<Trit>)
    ensures ts == Unpack(packed, n)
  {
    hide Digits;
    ts := [];
    var i := 0;
    while i < |packed|
      invariant 0 <= i <= |packed|
      invariant ts + ToTrits(UnpackDigits(packed[i..])) == ToTrits(UnpackDigits(packed))
    {
      var five := LowTrits(packed[i], 5);
      assert packed[i..][1..] == packed[i + 1..];
      assert ToTrits(UnpackDigits(packed[i..])) == five + ToTrits(UnpackDigits(packed[i + 1..]));
      ts := ts + five;
      i := i + 1;
    }
    assert ts == ToTrits(UnpackDigits(packed));
    ts := ts[..Min(|ts|, n)];
  }

  /** The `n` low base-3 digits of a number as trits, read off low to high. */
  method LowTrits(v0: nat, n: nat) returns (ts: seq<Trit>)
    ensures ts == ToTrits(Digits(v0, n))
  {
    hide ToTrits, Digits;
    NoTrits(v0);
    ts := [];
    var v := v0;
    var j := 0;
    while j < n
      invariant 0 <= j <= n
      invariant ts + ToTrits(Digits(v, n - j)) == ToTrits(Digits(v0, n))
    {
      TritStep(v, n - j);
      ts := ts + [(v as int) % 3 - 1];
      v := v / 3;
      j := j + 1;
    }
    NoTrits(v);
    assert ts + [] == ts;
  }

  lemma NoTrits(v: nat)
    ensures ToTrits(Digits(v, 0)) == []
  {
  }

  lemma TritStep(v: nat, n: nat)
    requires n > 0
    ensures ToTrits(Digits(v, n)) == [(v as int) % 3 - 1] + ToTrits(Digits(v / 3, n - 1))
  {
  }

  method EncodeWeight(w: real) returns (bytes: seq<Byte>)
    ensures bytes == Encode(w) && |bytes| == 2
  {
    hide Level, Pack, ToTrits, Digits;
    var ts := LowTrits(Level(w), TRITS_PER_WEIGHT);
    EncodeLength(w);
    bytes := PackTernary(ts);
  }

  method DecodeWeight(bytes: seq<Byte>) returns (w: real)
    ensures w == Decode(bytes)
  {
    hide Unpack;
    var ts := UnpackTernary(bytes, TRITS_PER_WEIGHT);
    var ds := ToDigits(ts);
    var scaled, mul := 0, 1;
    var i := 0;
    assert ds[0..] == ds;
    while i < |ts|
      invariant 0 <= i <= |ts|
      invariant scaled + mul * Value(ds[i..]) == Value(ds)
    {
      var digit: int := (ts[i] as int) + 1;
      assert ds[i..][1..] == ds[i + 1..];
      Shift(mul, digit, Value(ds[i + 1..]));
      scaled := scaled + digit * mul;
      mul := mul * 3;
      i := i + 1;
    }
    w := OfLevel(scaled);
  }

  lemma Shift(mul: int, d: int, v: int)
    ensures mul * (d + 3 * v) == d * mul + mul * 3 * v
  {
  }
}
