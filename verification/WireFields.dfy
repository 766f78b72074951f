/** The fields of the packets between client and server (src/client_server.h): big-endian words in a packed struct.
    to_16 and from_16 carry signed 16-bit numbers, to_64 and from_64 signed 64-bit numbers, a plain uint8_t an unsigned
    byte, and to_double and from_double a number of 1e-10 units above -9e8. */
module WireFields {
  import opened Words

  type Byte = x: int | 0 <= x < 256

  // ----- Big-endian words -----

  function Pow256(w: nat): (p: nat)
    ensures p > 0
  {
    if w == 0 then 1 else 256 * Pow256(w - 1)
  }

  function BigEndian(n: nat, w: nat): (s: seq<Byte>)
    ensures |s| == w
  {
    if w == 0 then [] else BigEndian(n / 256, w - 1) + [n % 256]
  }

  function FromBigEndian(s: seq<Byte>): nat {
    if s == [] then 0 else 256 * FromBigEndian(s[..|s| - 1]) + s[|s| - 1]
  }

  lemma {:induction false} BigEndianInverts(n: nat, w: nat)
    requires n < Pow256(w)
    ensures FromBigEndian(BigEndian(n, w)) == n
  {
    if w > 0 {
      BigEndianInverts(n / 256, w - 1);
      assert BigEndian(n, w)[..w - 1] == BigEndian(n / 256, w - 1);
    }
  }

  lemma DivideTwice(n: nat, p: nat)
    requires p > 0
    ensures n / 256 / p == n / (256 * p)
  {
    var q := n / 256;
    var a, b := q / p, q % p;
    assert q == p * a + b;
    assert n == (256 * p) * a + (256 * b + n % 256);
    assert 0 <= 256 * b + n % 256 < 256 * p;
    QuotientIs(n, 256 * p, a, 256 * b + n % 256);
  }

  lemma QuotientIs(n: nat, m: nat, a: nat, r: nat)
    requires m > 0 && n == m * a + r && r < m
    ensures n / m == a
  {
    var d := n / m - a;
    assert m * d == r - n % m;
    MultipleOf(m, d);
  }

  lemma MultipleOf(m: int, d: int)
    requires m > 0
    ensures (d > 0 ==> m * d >= m) && (d < 0 ==> m * d <= -m)
  {
  }

  /** The most significant byte comes first: the byte with k bytes behind it has the weight 256^k. */
  lemma {:induction false} BigEndianDigit(n: nat, w: nat, k: nat)
    requires k < w
    ensures BigEndian(n, w)[w - 1 - k] == n / Pow256(k) % 256
  {
    if k > 0 {
      BigEndianDigit(n / 256, w - 1, k - 1);
      DivideTwice(n, Pow256(k - 1));
    }
  }

  // ----- Fields -----

  datatype Kind = U8 | S16 | S64 | F64

  function Size(k: Kind): nat {
    match k
    case U8 => 1
    case S16 => 2
    case S64 => 8
    case F64 => 8
  }

  /** Half the number of values of the word. */
  function Half(k: Kind): int {
    match k
    case U8 => 0x80
    case S16 => 0x8000
    case S64 => 0x8000_0000_0000_0000
    case F64 => 0x8000_0000_0000_0000
  }

  predicate SignedKind(k: Kind) {
    k.S16? || k.S64?
  }

  predicate InRange(k: Kind, x: int) {
    if SignedKind(k) then -Half(k) <= x < Half(k) else 0 <= x < 2 * Half(k)
  }

  lemma SizeFits(k: Kind)
    ensures Pow256(Size(k)) == 2 * Half(k)
  {
    assert Pow256(1) == 256;
    assert Pow256(2) == 256 * Pow256(1);
    assert Pow256(4) == 256 * (256 * Pow256(2));
    assert Pow256(6) == 256 * (256 * Pow256(4));
    assert Pow256(8) == 256 * (256 * Pow256(6));
  }

  function Encode(k: Kind, x: int): (s: seq<Byte>)
    ensures |s| == Size(k)
  {
    BigEndian(Low(x, 2 * Half(k)), Size(k))
  }

  function Decode(k: Kind, s: seq<Byte>): int {
    if SignedKind(k) then Signed(FromBigEndian(s), Half(k)) else FromBigEndian(s)
  }

  /** A field comes out as it went in exactly when it fits its word. */
  lemma FieldRoundTrip(k: Kind, x: int)
    ensures Decode(k, Encode(k, x)) == x <==> InRange(k, x)
  {
    SizeFits(k);
    BigEndianInverts(Low(x, 2 * Half(k)), Size(k));
    SignedLow(x, Half(k));
  }

  /** The two bytes of a word that is not negative. */
  lemma ShortBytes(x: int)
    requires 0 <= x < 0x8000
    ensures Encode(S16, x) == [x / 256, x % 256]
  {
    BigEndianDigit(x, 2, 0);
    BigEndianDigit(x, 2, 1);
    assert Pow256(1) == 256 * Pow256(0) == 256;
  }

  predicate IsByte(x: int) {
    0 <= x <= 255
  }

  predicate IsShort(x: int) {
    -32_768 <= x <= 32_767
  }

  predicate IsLong(x: int) {
    -0x8000_0000_0000_0000 <= x <= 0x7FFF_FFFF_FFFF_FFFF
  }

  // ----- Packets -----

  function TotalSize(kinds: seq<Kind>): nat {
    if kinds == [] then 0 else Size(kinds[0]) + TotalSize(kinds[1..])
  }

  /** The packed struct with these fields. */
  function EncodeAll(kinds: seq<Kind>, xs: seq<int>): (s: seq<Byte>)
    requires |xs| == |kinds|
    ensures |s| == TotalSize(kinds)
  {
    if kinds == [] then [] else Encode(kinds[0], xs[0]) + EncodeAll(kinds[1..], xs[1..])
  }

  function DecodeAll(kinds: seq<Kind>, s: seq<Byte>): (xs: seq<int>)
    requires |s| == TotalSize(kinds)
    ensures |xs| == |kinds|
  {
    if kinds == [] then []
    else [Decode(kinds[0], s[..Size(kinds[0])])] + DecodeAll(kinds[1..], s[Size(kinds[0])..])
  }

  predicate AllInRange(kinds: seq<Kind>, xs: seq<int>)
    requires |xs| == |kinds|
  {
    forall i :: 0 <= i < |kinds| ==> InRange(kinds[i], xs[i])
  }

  /** What the receiver has of each field. */
  function Received(kinds: seq<Kind>, xs: seq<int>): (ys: seq<int>)
    requires |xs| == |kinds|
    ensures |ys| == |kinds|
  {
    seq(|kinds|, i requires 0 <= i < |kinds| => Decode(kinds[i], Encode(kinds[i], xs[i])))
  }

  /** The fields do not disturb each other. */
  lemma {:induction false} FieldByField(kinds: seq<Kind>, xs: seq<int>)
    requires |xs| == |kinds|
    ensures DecodeAll(kinds, EncodeAll(kinds, xs)) == Received(kinds, xs)
  {
    if kinds != [] {
      var s, n := EncodeAll(kinds, xs), Size(kinds[0]);
      assert s[..n] == Encode(kinds[0], xs[0]) && s[n..] == EncodeAll(kinds[1..], xs[1..]);
      FieldByField(kinds[1..], xs[1..]);
      assert Received(kinds, xs) == [Decode(kinds[0], Encode(kinds[0], xs[0]))] + Received(kinds[1..], xs[1..]);
    }
  }

  lemma PacketRoundTrip(kinds: seq<Kind>, xs: seq<int>)
    requires |xs| == |kinds|
    ensures DecodeAll(kinds, EncodeAll(kinds, xs)) == Received(kinds, xs)
    ensures DecodeAll(kinds, EncodeAll(kinds, xs)) == xs <==> AllInRange(kinds, xs)
  {
    FieldByField(kinds, xs);
    var ys := Received(kinds, xs);
    forall i | 0 <= i < |kinds|
      ensures ys[i] == xs[i] <==> InRange(kinds[i], xs[i])
    {
      FieldRoundTrip(kinds[i], xs[i]);
    }
  }

  /** Words of one kind, one behind the other. */
  function Many(k: Kind, xs: seq<int>): seq<Byte> {
    if xs == [] then [] else Encode(k, xs[0]) + Many(k, xs[1..])
  }

  lemma {:induction false} EncodeRun(kinds: seq<Kind>, xs: seq<int>, k: Kind, n: nat)
    requires |xs| == |kinds| && n <= |kinds| && forall i :: 0 <= i < n ==> kinds[i] == k
    ensures EncodeAll(kinds, xs) == Many(k, xs[..n]) + EncodeAll(kinds[n..], xs[n..])
  {
    if n == 0 {
      assert kinds[0..] == kinds && xs[0..] == xs && xs[..0] == [];
      assert [] + EncodeAll(kinds, xs) == EncodeAll(kinds, xs);
    } else {
      EncodeRun(kinds[1..], xs[1..], k, n - 1);
      assert kinds[1..][n - 1..] == kinds[n..] && xs[1..][n - 1..] == xs[n..];
      assert xs[..n][1..] == xs[1..][..n - 1] && xs[..n][0] == xs[0];
      Assoc(Encode(k, xs[0]), Many(k, xs[1..][..n - 1]), EncodeAll(kinds[n..], xs[n..]));
    }
  }

  lemma Assoc(a: seq<Byte>, b: seq<Byte>, c: seq<Byte>)
    ensures (a + b) + c == a + (b + c)
  {
  }

  lemma EncodeEnd(kinds: seq<Kind>, xs: seq<int>, k: Kind)
    requires |xs| == |kinds| && forall i :: 0 <= i < |kinds| ==> kinds[i] == k
    ensures EncodeAll(kinds, xs) == Many(k, xs)
  {
    var n := |kinds|;
    EncodeRun(kinds, xs, k, n);
    assert xs[..n] == xs && kinds[n..] == [] && xs[n..] == [];
  }

  /** A struct of n words of kind k, m of kind l and the rest of kind j. */
  lemma EncodeThree(kinds: seq<Kind>, xs: seq<int>, k: Kind, n: nat, l: Kind, m: nat, j: Kind)
    requires |xs| == |kinds| && n + m <= |kinds|
    requires forall i :: 0 <= i < |kinds| ==> kinds[i] == if i < n then k else if i < n + m then l else j
    ensures EncodeAll(kinds, xs) == Many(k, xs[..n]) + (Many(l, xs[n..n + m]) + Many(j, xs[n + m..]))
  {
    EncodeRun(kinds, xs, k, n);
    EncodeRun(kinds[n..], xs[n..], l, m);
    assert xs[n..][..m] == xs[n..n + m] && xs[n..][m..] == xs[n + m..] && kinds[n..][m..] == kinds[n + m..];
    EncodeEnd(kinds[n + m..], xs[n + m..], j);
  }

  // ----- Numbers with a fraction -----

  const UNITS: real := 10_000_000_000.0
  const OFFSET: real := 900_000_000.0

  /** to_double: over the reals, so without the rounding of the multiplication. */
  function ToDouble(x: real): int {
    ((x + OFFSET) * UNITS).Floor
  }

  function FromDouble(u: int): real {
    u as real / UNITS - OFFSET
  }

  predicate DoubleRange(x: real) {
    -900_000_000.0 <= x < 900_000_000.0
  }

  /** `y` is `x` to within the resolution of the wire. */
  predicate Close(x: real, y: real) {
    0.0 <= x - y < 0.000_000_000_1
  }

  /** A number in the range comes out at most 1e-10 smaller. */
  lemma DoubleRoundTrip(x: real)
    requires DoubleRange(x)
    ensures InRange(F64, ToDouble(x))
    ensures Close(x, FromDouble(ToDouble(x)))
  {
    var y := (x + OFFSET) * UNITS;
    assert 0.0 <= y < 2.0 * OFFSET * UNITS;
    assert y.Floor as real <= y < y.Floor as real + 1.0;
    assert x == y / UNITS - OFFSET;
  }

  lemma DoubleMonotone(x: real, y: real)
    requires x <= y
    ensures ToDouble(x) <= ToDouble(y)
  {
    assert (x + OFFSET) * UNITS <= (y + OFFSET) * UNITS;
  }

  // ----- VFO_DATA -----

  datatype VfoData = VfoData(frequency: int, ctunFrequency: int, rit: int, xit: int, lo: int, offset: int, step: int,
                             ritStep: int, deviation: int, vfo: int, band: int, bandstack: int, mode: int, filter: int,
                             ctun: int, ritEnabled: int, xitEnabled: int, cwAudioPeakFilter: int)

  const VFO_KINDS: seq<Kind> :=
    [S64, S64, S64, S64, S64, S64, S64] + [S16, S16] + [U8, U8, U8, U8, U8, U8, U8, U8, U8]

  function VfoFields(v: VfoData): (xs: seq<int>)
    ensures |xs| == 18
  {
    [v.frequency, v.ctunFrequency, v.rit, v.xit, v.lo, v.offset, v.step, v.ritStep, v.deviation, v.vfo, v.band,
     v.bandstack, v.mode, v.filter, v.ctun, v.ritEnabled, v.xitEnabled, v.cwAudioPeakFilter]
  }

  function VfoOf(xs: seq<int>): VfoData
    requires |xs| == 18
  {
    VfoData(xs[0], xs[1], xs[2], xs[3], xs[4], xs[5], xs[6], xs[7], xs[8], xs[9], xs[10], xs[11], xs[12], xs[13],
            xs[14], xs[15], xs[16], xs[17])
  }

  function EncodeVfo(v: VfoData): seq<Byte> {
    EncodeAll(VFO_KINDS, VfoFields(v))
  }

  function DecodeVfo(s: seq<Byte>): VfoData
    requires |s| == TotalSize(VFO_KINDS)
  {
    VfoOf(DecodeAll(VFO_KINDS, s))
  }

  lemma VfoInjective(xs: seq<int>, v: VfoData)
    requires |xs| == 18
    ensures VfoOf(xs) == v <==> xs == VfoFields(v)
  {
    if VfoOf(xs) == v {
      assert xs == VfoFields(v);
    }
  }

  predicate VfoInRange(v: VfoData) {
    && IsLong(v.frequency) && IsLong(v.ctunFrequency) && IsLong(v.rit) && IsLong(v.xit) && IsLong(v.lo)
    && IsLong(v.offset) && IsLong(v.step) && IsShort(v.ritStep) && IsShort(v.deviation)
    && IsByte(v.vfo) && IsByte(v.band) && IsByte(v.bandstack) && IsByte(v.mode) && IsByte(v.filter)
    && IsByte(v.ctun) && IsByte(v.ritEnabled) && IsByte(v.xitEnabled) && IsByte(v.cwAudioPeakFilter)
  }

  lemma VfoLongs(v: VfoData)
    ensures (forall i :: 0 <= i < 7 ==> InRange(VFO_KINDS[i], VfoFields(v)[i]))
            <==> && IsLong(v.frequency) && IsLong(v.ctunFrequency) && IsLong(v.rit) && IsLong(v.xit) && IsLong(v.lo)
                 && IsLong(v.offset) && IsLong(v.step)
  {
    var xs := VfoFields(v);
    assert xs[0] == v.frequency && xs[1] == v.ctunFrequency && xs[2] == v.rit && xs[3] == v.xit;
    assert xs[4] == v.lo && xs[5] == v.offset && xs[6] == v.step;
    assert forall i :: 0 <= i < 7 ==> (InRange(VFO_KINDS[i], xs[i]) <==> IsLong(xs[i]));
  }

  lemma VfoShorts(v: VfoData)
    ensures (forall i :: 7 <= i < 9 ==> InRange(VFO_KINDS[i], VfoFields(v)[i]))
            <==> IsShort(v.ritStep) && IsShort(v.deviation)
  {
    var xs := VfoFields(v);
    assert xs[7] == v.ritStep && xs[8] == v.deviation;
    assert forall i :: 7 <= i < 9 ==> (InRange(VFO_KINDS[i], xs[i]) <==> IsShort(xs[i]));
  }

  lemma VfoBytes(v: VfoData)
    ensures (forall i :: 9 <= i < 18 ==> InRange(VFO_KINDS[i], VfoFields(v)[i]))
            <==> && IsByte(v.vfo) && IsByte(v.band) && IsByte(v.bandstack) && IsByte(v.mode) && IsByte(v.filter)
                 && IsByte(v.ctun) && IsByte(v.ritEnabled) && IsByte(v.xitEnabled) && IsByte(v.cwAudioPeakFilter)
  {
    var xs := VfoFields(v);
    assert xs[9] == v.vfo && xs[10] == v.band && xs[11] == v.bandstack && xs[12] == v.mode && xs[13] == v.filter;
    assert xs[14] == v.ctun && xs[15] == v.ritEnabled && xs[16] == v.xitEnabled && xs[17] == v.cwAudioPeakFilter;
    assert forall i :: 9 <= i < 18 ==> (InRange(VFO_KINDS[i], xs[i]) <==> IsByte(xs[i]));
  }

  lemma VfoRanges(v: VfoData)
    ensures AllInRange(VFO_KINDS, VfoFields(v)) <==> VfoInRange(v)
  {
    VfoLongs(v);
    VfoShorts(v);
    VfoBytes(v);
  }

  /** The receiver of a VFO packet has every field of the sender exactly when each fits its word. */
  lemma VfoRoundTrip(v: VfoData)
    ensures DecodeVfo(EncodeVfo(v)) == v <==> VfoInRange(v)
  {
    PacketRoundTrip(VFO_KINDS, VfoFields(v));
    VfoInjective(DecodeAll(VFO_KINDS, EncodeVfo(v)), v);
    VfoRanges(v);
  }

  lemma VfoParts(v: VfoData)
    ensures VfoFields(v)[..7] == [v.frequency, v.ctunFrequency, v.rit, v.xit, v.lo, v.offset, v.step]
    ensures VfoFields(v)[7..9] == [v.ritStep, v.deviation]
    ensures VfoFields(v)[9..] == [v.vfo, v.band, v.bandstack, v.mode, v.filter, v.ctun, v.ritEnabled, v.xitEnabled,
                                  v.cwAudioPeakFilter]
  {
    var xs := VfoFields(v);
    assert xs[7] == v.ritStep && xs[8] == v.deviation;
  }

  /** The fields are in the order of the struct. */
  lemma VfoLayout(v: VfoData)
    ensures EncodeVfo(v)
         == Many(S64, [v.frequency, v.ctunFrequency, v.rit, v.xit, v.lo, v.offset, v.step])
            + (Many(S16, [v.ritStep, v.deviation])
               + Many(U8, [v.vfo, v.band, v.bandstack, v.mode, v.filter, v.ctun, v.ritEnabled, v.xitEnabled,
                           v.cwAudioPeakFilter]))
  {
    VfoParts(v);
    EncodeThree(VFO_KINDS, VfoFields(v), S64, 7, S16, 2, U8);
  }

  // ----- AGC_COMMAND -----

  datatype AgcData = AgcData(gain: real, hang: real, thresh: real, hangThresh: real, customAttack: int,
                             customDecay: int, customHang: int, customSlope: int, id: int, agc: int)

  const AGC_KINDS: seq<Kind> := [F64, F64, F64, F64, S16, S16, S16, S16, U8, U8]

  function AgcFields(a: AgcData): (xs: seq<int>)
    ensures |xs| == 10
  {
    [ToDouble(a.gain), ToDouble(a.hang), ToDouble(a.thresh), ToDouble(a.hangThresh), a.customAttack, a.customDecay,
     a.customHang, a.customSlope, a.id, a.agc]
  }

  function AgcOf(xs: seq<int>): AgcData
    requires |xs| == 10
  {
    AgcData(FromDouble(xs[0]), FromDouble(xs[1]), FromDouble(xs[2]), FromDouble(xs[3]), xs[4], xs[5], xs[6], xs[7],
            xs[8], xs[9])
  }

  function EncodeAgc(a: AgcData): seq<Byte> {
    EncodeAll(AGC_KINDS, AgcFields(a))
  }

  function DecodeAgc(s: seq<Byte>): AgcData
    requires |s| == TotalSize(AGC_KINDS)
  {
    AgcOf(DecodeAll(AGC_KINDS, s))
  }

  predicate AgcReals(a: AgcData) {
    DoubleRange(a.gain) && DoubleRange(a.hang) && DoubleRange(a.thresh) && DoubleRange(a.hangThresh)
  }

  predicate AgcInRange(a: AgcData) {
    && IsShort(a.customAttack) && IsShort(a.customDecay) && IsShort(a.customHang) && IsShort(a.customSlope)
    && IsByte(a.id) && IsByte(a.agc)
  }

  lemma AgcParts(a: AgcData)
    ensures AgcFields(a)[..4] == [ToDouble(a.gain), ToDouble(a.hang), ToDouble(a.thresh), ToDouble(a.hangThresh)]
    ensures AgcFields(a)[4..8] == [a.customAttack, a.customDecay, a.customHang, a.customSlope]
    ensures AgcFields(a)[8..] == [a.id, a.agc]
  {
    var xs := AgcFields(a);
    assert xs[4] == a.customAttack && xs[5] == a.customDecay && xs[6] == a.customHang && xs[7] == a.customSlope;
    assert xs[8] == a.id && xs[9] == a.agc;
  }

  /** The fields are in the order of the struct. */
  lemma AgcLayout(a: AgcData)
    ensures EncodeAgc(a)
         == Many(F64, [ToDouble(a.gain), ToDouble(a.hang), ToDouble(a.thresh), ToDouble(a.hangThresh)])
            + (Many(S16, [a.customAttack, a.customDecay, a.customHang, a.customSlope]) + Many(U8, [a.id, a.agc]))
  {
    AgcParts(a);
    EncodeThree(AGC_KINDS, AgcFields(a), F64, 4, S16, 4, U8);
  }

  /** What arrives of each field. */
  lemma AgcArrives(a: AgcData, i: nat)
    requires i < 10
    ensures var ys := DecodeAll(AGC_KINDS, EncodeAgc(a));
            ys[i] == AgcFields(a)[i] <==> InRange(AGC_KINDS[i], AgcFields(a)[i])
  {
    FieldByField(AGC_KINDS, AgcFields(a));
    FieldRoundTrip(AGC_KINDS[i], AgcFields(a)[i]);
  }

  lemma AgcRealsArrive(a: AgcData)
    requires AgcReals(a)
    ensures var b := DecodeAgc(EncodeAgc(a));
            && Close(a.gain, b.gain) && Close(a.hang, b.hang) && Close(a.thresh, b.thresh)
            && Close(a.hangThresh, b.hangThresh)
  {
    DoubleRoundTrip(a.gain);
    AgcArrives(a, 0);
    DoubleRoundTrip(a.hang);
    AgcArrives(a, 1);
    DoubleRoundTrip(a.thresh);
    AgcArrives(a, 2);
    DoubleRoundTrip(a.hangThresh);
    AgcArrives(a, 3);
  }

  lemma AgcShortsArrive(a: AgcData)
    ensures var b := DecodeAgc(EncodeAgc(a));
            && (b.customAttack == a.customAttack <==> IsShort(a.customAttack))
            && (b.customDecay == a.customDecay <==> IsShort(a.customDecay))
            && (b.customHang == a.customHang <==> IsShort(a.customHang))
            && (b.customSlope == a.customSlope <==> IsShort(a.customSlope))
  {
    AgcArrives(a, 4);
    AgcArrives(a, 5);
    AgcArrives(a, 6);
    AgcArrives(a, 7);
  }

  lemma AgcBytesArrive(a: AgcData)
    ensures var b := DecodeAgc(EncodeAgc(a));
            (b.id == a.id <==> IsByte(a.id)) && (b.agc == a.agc <==> IsByte(a.agc))
  {
    AgcArrives(a, 8);
    AgcArrives(a, 9);
  }

  /** The four reals come out to within 1e-10; the whole numbers exactly when they fit. */
  lemma AgcRoundTrip(a: AgcData)
    requires AgcReals(a)
    ensures var b := DecodeAgc(EncodeAgc(a));
            && Close(a.gain, b.gain) && Close(a.hang, b.hang) && Close(a.thresh, b.thresh)
            && Close(a.hangThresh, b.hangThresh)
            && (b.(gain := a.gain, hang := a.hang, thresh := a.thresh, hangThresh := a.hangThresh) == a
                <==> AgcInRange(a))
  {
    AgcRealsArrive(a);
    AgcShortsArrive(a);
    AgcBytesArrive(a);
  }

  // ----- BAND_DATA -----

  datatype BandData = BandData(paCalibration: real, frequencyMin: int, frequencyMax: int, frequencyLO: int,
                               errorLO: int, gaincalib: int, title: seq<Byte>, band: int, ocRx: int, ocTx: int,
                               rxAntenna: int, txAntenna: int, disablePA: int, current: int)

  const TITLE_SIZE: nat := 16

  const BAND_HEAD: seq<Kind> := [F64, S64, S64, S64, S64, S16]
  const BAND_TAIL: seq<Kind> := [U8, U8, U8, U8, U8, U8, U8]

  function BandHead(b: BandData): (xs: seq<int>)
    ensures |xs| == 6
  {
    [ToDouble(b.paCalibration), b.frequencyMin, b.frequencyMax, b.frequencyLO, b.errorLO, b.gaincalib]
  }

  function BandTail(b: BandData): (xs: seq<int>)
    ensures |xs| == 7
  {
    [b.band, b.ocRx, b.ocTx, b.rxAntenna, b.txAntenna, b.disablePA, b.current]
  }

  /** snprintf into char[16]: at most 15 characters and a NUL; the rest of the array keeps what was there. */
  function TitleField(title: seq<Byte>, rest: seq<Byte>): (f: seq<Byte>)
    requires |rest| == TITLE_SIZE
    ensures |f| == TITLE_SIZE
  {
    var t := if |title| < TITLE_SIZE then title else title[..TITLE_SIZE - 1];
    t + [0] + rest[|t| + 1..]
  }

  /** And what "%s" makes of it. */
  function TitleOf(f: seq<Byte>): seq<Byte> {
    if f == [] || f[0] == 0 then [] else [f[0]] + TitleOf(f[1..])
  }

  /** A title that char[16] can hold as a string. */
  predicate IsTitle(title: seq<Byte>) {
    |title| <= 15 && forall k :: 0 <= k < |title| ==> title[k] != 0
  }

  lemma {:induction false} TitleOfUpToNul(t: seq<Byte>, rest: seq<Byte>)
    ensures |TitleOf(t + [0] + rest)| <= |t|
    ensures TitleOf(t + [0] + rest) == t <==> forall k :: 0 <= k < |t| ==> t[k] != 0
  {
    var f := t + [0] + rest;
    if t != [] {
      assert f[1..] == t[1..] + [0] + rest;
      TitleOfUpToNul(t[1..], rest);
      assert t == [t[0]] + t[1..];
      assert forall k :: 1 <= k < |t| ==> t[k] == t[1..][k - 1];
    }
  }

  lemma TitleRoundTrip(title: seq<Byte>, rest: seq<Byte>)
    requires |rest| == TITLE_SIZE
    ensures TitleOf(TitleField(title, rest)) == title <==> IsTitle(title)
  {
    if |title| < TITLE_SIZE {
      TitleOfUpToNul(title, rest[|title| + 1..]);
    } else {
      TitleOfUpToNul(title[..TITLE_SIZE - 1], rest[TITLE_SIZE..]);
    }
  }

  function EncodeBand(b: BandData, rest: seq<Byte>): seq<Byte>
    requires |rest| == TITLE_SIZE
  {
    EncodeAll(BAND_HEAD, BandHead(b)) + TitleField(b.title, rest) + EncodeAll(BAND_TAIL, BandTail(b))
  }

  function BandOf(xs: seq<int>, title: seq<Byte>, ys: seq<int>): BandData
    requires |xs| == 6 && |ys| == 7
  {
    BandData(FromDouble(xs[0]), xs[1], xs[2], xs[3], xs[4], xs[5], title, ys[0], ys[1], ys[2], ys[3], ys[4], ys[5],
             ys[6])
  }

  lemma BandInjective(xs: seq<int>, title: seq<Byte>, ys: seq<int>, b: BandData)
    requires |xs| == 6 && |ys| == 7
    ensures BandOf(xs, title, ys).(paCalibration := b.paCalibration) == b
            <==> xs[1..] == BandHead(b)[1..] && title == b.title && ys == BandTail(b)
  {
    var hs := BandHead(b);
    assert xs[1..] == hs[1..] <==>
           xs[1] == hs[1] && xs[2] == hs[2] && xs[3] == hs[3] && xs[4] == hs[4] && xs[5] == hs[5];
    var ts := BandTail(b);
    assert ys == ts <==>
           ys[0] == ts[0] && ys[1] == ts[1] && ys[2] == ts[2] && ys[3] == ts[3] && ys[4] == ts[4] && ys[5] == ts[5]
           && ys[6] == ts[6];
  }

  function DecodeBand(s: seq<Byte>): BandData
    requires |s| == TotalSize(BAND_HEAD) + TITLE_SIZE + TotalSize(BAND_TAIL)
  {
    var n := TotalSize(BAND_HEAD);
    BandOf(DecodeAll(BAND_HEAD, s[..n]), TitleOf(s[n..n + TITLE_SIZE]), DecodeAll(BAND_TAIL, s[n + TITLE_SIZE..]))
  }

  predicate BandInRange(b: BandData) {
    && IsLong(b.frequencyMin) && IsLong(b.frequencyMax) && IsLong(b.frequencyLO) && IsLong(b.errorLO)
    && IsShort(b.gaincalib) && IsTitle(b.title)
    && IsByte(b.band) && IsByte(b.ocRx) && IsByte(b.ocTx) && IsByte(b.rxAntenna) && IsByte(b.txAntenna)
    && IsByte(b.disablePA) && IsByte(b.current)
  }

  lemma BandTailRanges(b: BandData)
    ensures AllInRange(BAND_TAIL, BandTail(b))
            <==> && IsByte(b.band) && IsByte(b.ocRx) && IsByte(b.ocTx) && IsByte(b.rxAntenna) && IsByte(b.txAntenna)
                 && IsByte(b.disablePA) && IsByte(b.current)
  {
    var ts := BandTail(b);
    assert AllInRange(BAND_TAIL, ts) <==> forall i :: 0 <= i < 7 ==> IsByte(ts[i]);
    assert (forall i :: 0 <= i < 7 ==> IsByte(ts[i])) <==>
           IsByte(ts[0]) && IsByte(ts[1]) && IsByte(ts[2]) && IsByte(ts[3]) && IsByte(ts[4]) && IsByte(ts[5])
           && IsByte(ts[6]);
  }

  /** The fields are in the order of the struct, with the title in the middle. */
  lemma BandLayout(b: BandData, rest: seq<Byte>)
    requires |rest| == TITLE_SIZE
    ensures EncodeBand(b, rest)
         == (Many(F64, [ToDouble(b.paCalibration)])
             + (Many(S64, [b.frequencyMin, b.frequencyMax, b.frequencyLO, b.errorLO]) + Many(S16, [b.gaincalib])))
            + TitleField(b.title, rest)
            + Many(U8, [b.band, b.ocRx, b.ocTx, b.rxAntenna, b.txAntenna, b.disablePA, b.current])
  {
    var xs := BandHead(b);
    EncodeThree(BAND_HEAD, xs, F64, 1, S64, 4, S16);
    assert xs[..1] == [ToDouble(b.paCalibration)] && xs[1 + 4..] == [b.gaincalib];
    assert xs[1..1 + 4] == [b.frequencyMin, b.frequencyMax, b.frequencyLO, b.errorLO];
    EncodeEnd(BAND_TAIL, BandTail(b), U8);
  }

  lemma HeadArrives(b: BandData, i: nat)
    requires i < 6
    ensures var ys := DecodeAll(BAND_HEAD, EncodeAll(BAND_HEAD, BandHead(b)));
            ys[i] == BandHead(b)[i] <==> InRange(BAND_HEAD[i], BandHead(b)[i])
  {
    FieldByField(BAND_HEAD, BandHead(b));
    FieldRoundTrip(BAND_HEAD[i], BandHead(b)[i]);
  }

  lemma BandHeadRoundTrip(b: BandData)
    ensures var xs := DecodeAll(BAND_HEAD, EncodeAll(BAND_HEAD, BandHead(b)));
            && (DoubleRange(b.paCalibration) ==> Close(b.paCalibration, FromDouble(xs[0])))
            && (xs[1..] == BandHead(b)[1..]
                <==> IsLong(b.frequencyMin) && IsLong(b.frequencyMax) && IsLong(b.frequencyLO) && IsLong(b.errorLO)
                     && IsShort(b.gaincalib))
  {
    HeadArrives(b, 0);
    HeadArrives(b, 1);
    HeadArrives(b, 2);
    HeadArrives(b, 3);
    HeadArrives(b, 4);
    HeadArrives(b, 5);
    if DoubleRange(b.paCalibration) {
      DoubleRoundTrip(b.paCalibration);
    }
    var xs, hs := DecodeAll(BAND_HEAD, EncodeAll(BAND_HEAD, BandHead(b))), BandHead(b);
    assert xs[1..] == hs[1..] <==>
           xs[1] == hs[1] && xs[2] == hs[2] && xs[3] == hs[3] && xs[4] == hs[4] && xs[5] == hs[5];
  }

  /** The calibration comes out to within 1e-10; the other fields exactly when they fit their words, and the title
      when it is a string that its array can hold, whatever `rest` the array held before. */
  lemma BandRoundTrip(b: BandData, rest: seq<Byte>)
    requires |rest| == TITLE_SIZE && DoubleRange(b.paCalibration)
    ensures var c := DecodeBand(EncodeBand(b, rest));
            && Close(b.paCalibration, c.paCalibration)
            && (c.(paCalibration := b.paCalibration) == b <==> BandInRange(b))
  {
    var n := TotalSize(BAND_HEAD);
    var s := EncodeBand(b, rest);
    assert s[..n] == EncodeAll(BAND_HEAD, BandHead(b));
    assert s[n..n + TITLE_SIZE] == TitleField(b.title, rest);
    assert s[n + TITLE_SIZE..] == EncodeAll(BAND_TAIL, BandTail(b));
    BandHeadRoundTrip(b);
    TitleRoundTrip(b.title, rest);
    PacketRoundTrip(BAND_TAIL, BandTail(b));
    BandTailRanges(b);
    BandInjective(DecodeAll(BAND_HEAD, s[..n]), TitleOf(s[n..n + TITLE_SIZE]),
                  DecodeAll(BAND_TAIL, s[n + TITLE_SIZE..]), b);
  }

  // ----- What the client does with a band packet -----

  datatype Taken =
    | Discarded
    | Outside                       // the test lets the number through, and the table has no such band
    | Stored(bands: seq<BandData>)

  /** `bands` are the client's records, `entries` the lengths of their band stacks. */
  function TakeBand(bands: seq<BandData>, entries: seq<nat>, b: BandData): Taken
    requires |bands| == |entries|
  {
    if b.band > |bands| then Discarded
    else if !(0 <= b.band < |bands|) then Outside
    else if b.current > entries[b.band] then Discarded
    else Stored(bands[b.band := b])
  }

  /** The client's record becomes the server's, the calibration to within 1e-10, exactly when the client has this band
      and its stack is at least as long as the server's index; other records stay. */
  lemma BandArrives(bands: seq<BandData>, entries: seq<nat>, b: BandData, rest: seq<Byte>)
    requires |bands| == |entries| && |rest| == TITLE_SIZE && DoubleRange(b.paCalibration) && BandInRange(b)
    ensures var c := DecodeBand(EncodeBand(b, rest));
            var t := TakeBand(bands, entries, c);
            && (t.Stored? <==> b.band < |bands| && b.current <= entries[b.band])
            && (t.Stored? ==>
                  && |t.bands| == |bands|
                  && t.bands[b.band].(paCalibration := b.paCalibration) == b
                  && Close(b.paCalibration, t.bands[b.band].paCalibration)
                  && forall i :: 0 <= i < |bands| && i != b.band ==> t.bands[i] == bands[i])
            && (t.Outside? <==> b.band == |bands|)
  {
    BandRoundTrip(b, rest);
  }
}
