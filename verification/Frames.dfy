/** The packets of the TCP connection as the client cuts them out of the byte stream (src/client_server.h,
    src/client_thread.c): a 12-byte header with the sync word and the packet type, and a body whose length the
    type alone decides. */
module Frames {
  import opened WireFields

  const SYNC: seq<Byte> := [0xFA, 0xFA, 0xAF, 0xAF]
  const SYNC_SIZE: nat := 4
  const HEADER_SIZE: nat := 12

  /** The packet types that come with a body; every other type is a header alone. */
  const CMD_AGC := 1
  const CMD_SAMPLE_RATE := 65
  const INFO_ADC := 98
  const INFO_BAND := 99
  const INFO_BANDSTACK := 100
  const INFO_MEMORY := 102
  const INFO_RADIO := 104
  const INFO_RECEIVER := 105
  const INFO_TRANSMITTER := 110
  const INFO_VFO := 113

  /** The data_type field. */
  function TypeOf(field: seq<Byte>): int {
    Decode(S16, field)
  }

  /** How many bytes the client reads after the header. */
  function BodyLength(kind: int): nat {
    if kind == CMD_AGC then 42
    else if kind == CMD_SAMPLE_RATE then 4
    else if kind == INFO_ADC then 34
    else if kind == INFO_BAND then 65
    else if kind == INFO_BANDSTACK then 25
    else if kind == INFO_MEMORY then 48
    else if kind == INFO_RADIO then 4119
    else if kind == INFO_RECEIVER then 493
    else if kind == INFO_TRANSMITTER then 619
    else if kind == INFO_VFO then 69
    else 0
  }

  /** How many fields a packed struct has of each width: real numbers, and words of 64, 32, 16 and 8 bits. */
  datatype Layout = Layout(reals: nat, longs: nat, ints: nat, shorts: nat, bytes: nat)

  /** The structs of the packets with a body, without their headers. */
  function LayoutOf(kind: int): Layout {
    if kind == CMD_AGC then Layout(4, 0, 0, 4, 2)
    else if kind == CMD_SAMPLE_RATE then Layout(0, 0, 1, 0, 0)
    else if kind == INFO_ADC then Layout(3, 0, 0, 1, 8)
    else if kind == INFO_BAND then Layout(1, 4, 0, 1, 16 + 7)
    else if kind == INFO_BANDSTACK then Layout(0, 2, 0, 1, 7)
    else if kind == INFO_MEMORY then Layout(0, 4, 0, 2, 12)
    else if kind == INFO_RADIO then
      // the names are arrays of 64 characters: three single ones, and six tables of eight
      Layout(3 + 11 + 2 + 9 + 9 * 8, 2, 1, 8, 43 + 3 * 64 + 6 * 8 * 64)
    else if kind == INFO_RECEIVER then Layout(22 + 2 * 11 + 2 * 3 + 4, 0, 2, 11, 27 + 3 + 1)
    else if kind == INFO_TRANSMITTER then Layout(1 + 2 * 11 + 5 + 3 * 11 + 9, 0, 1, 13, 29)
    else if kind == INFO_VFO then Layout(0, 7, 0, 2, 9)
    else Layout(0, 0, 0, 0, 0)
  }

  function Bytes(l: Layout): nat {
    8 * l.reals + 8 * l.longs + 4 * l.ints + 2 * l.shorts + l.bytes
  }

  /** The client reads the size of the struct, less the header. */
  lemma BodyIsStruct(kind: int)
    ensures BodyLength(kind) == Bytes(LayoutOf(kind))
  {
  }

  /** A struct begins with n fields of kind k. */
  lemma {:induction false} RunSize(kinds: seq<Kind>, k: Kind, n: nat)
    requires n <= |kinds| && forall i :: 0 <= i < n ==> kinds[i] == k
    ensures TotalSize(kinds) == n * Size(k) + TotalSize(kinds[n..])
  {
    if n == 0 {
      assert kinds[n..] == kinds;
    } else {
      RunSize(kinds[1..], k, n - 1);
      assert kinds[1..][n - 1..] == kinds[n..];
    }
  }

  /** A struct of n fields of kind k, m of kind l, and the rest of kind j. */
  lemma StructSize(kinds: seq<Kind>, k: Kind, n: nat, l: Kind, m: nat, j: Kind)
    requires n + m <= |kinds|
    requires forall i :: 0 <= i < |kinds| ==> kinds[i] == if i < n then k else if i < n + m then l else j
    ensures TotalSize(kinds) == n * Size(k) + m * Size(l) + (|kinds| - n - m) * Size(j)
  {
    RunSize(kinds, k, n);
    RunSize(kinds[n..], l, m);
    RunSize(kinds[n..][m..], j, |kinds| - n - m);
  }

  /** The lengths that the client expects are those of the packed structs. */
  lemma VfoBody()
    ensures TotalSize(VFO_KINDS) == BodyLength(INFO_VFO)
  {
    StructSize(VFO_KINDS, S64, 7, S16, 2, U8);
  }

  lemma AgcBody()
    ensures TotalSize(AGC_KINDS) == BodyLength(CMD_AGC)
  {
    StructSize(AGC_KINDS, F64, 4, S16, 4, U8);
  }

  lemma BandBody()
    ensures TotalSize(BAND_HEAD) + TITLE_SIZE + TotalSize(BAND_TAIL) == BodyLength(INFO_BAND)
  {
    StructSize(BAND_HEAD, F64, 1, S64, 4, S16);
    StructSize(BAND_TAIL, U8, 7, U8, 0, U8);
  }

  predicate IsPacket(p: seq<Byte>) {
    |p| >= HEADER_SIZE && p[..SYNC_SIZE] == SYNC && |p| == HEADER_SIZE + BodyLength(TypeOf(p[4..6]))
  }

  predicate ArePackets(ps: seq<seq<Byte>>) {
    forall i :: 0 <= i < |ps| ==> IsPacket(ps[i])
  }

  /** What a packet says: all but the sync word. */
  function Content(p: seq<Byte>): seq<Byte>
    requires IsPacket(p)
  {
    p[SYNC_SIZE..]
  }

  /** SYNC, to_16(kind), the six other bytes of the header, and the struct behind it. */
  function Sent(kind: int, six: seq<Byte>, body: seq<Byte>): seq<Byte> {
    [0xFA, 0xFA, 0xAF, 0xAF] + Encode(S16, kind) + six + body
  }

  /** What the senders put together is a packet for the client: for every type, and every body of the length that
      belongs to it, the client finds this type and this body. */
  lemma SentIsPacket(kind: int, six: seq<Byte>, body: seq<Byte>)
    requires IsShort(kind) && |six| == 6
    ensures IsPacket(Sent(kind, six, body)) <==> |body| == BodyLength(kind)
    ensures |body| == BodyLength(kind) ==>
              var c := Content(Sent(kind, six, body));
              TypeOf(c[..2]) == kind && c[2..8] == six && c[8..] == body
  {
    var p, field := Sent(kind, six, body), Encode(S16, kind);
    assert p[..4] == SYNC && p[4..6] == field;
    FieldRoundTrip(S16, kind);
    if |body| == BodyLength(kind) {
      var c := p[4..];
      assert c == field + six + body;
      assert c[..2] == field && c[2..8] == six && c[8..] == body;
    }
  }

  /** For a VFO packet the header begins with the bytes FA FA AF AF 00 71. */
  lemma VfoHeader(six: seq<Byte>, v: VfoData)
    ensures Sent(INFO_VFO, six, EncodeVfo(v)) == [0xFA, 0xFA, 0xAF, 0xAF, 0x00, 0x71] + six + EncodeVfo(v)
  {
    ShortBytes(INFO_VFO);
  }

  function Contents(ps: seq<seq<Byte>>): (cs: seq<seq<Byte>>)
    requires ArePackets(ps)
    ensures |cs| == |ps|
  {
    seq(|ps|, i requires 0 <= i < |ps| => Content(ps[i]))
  }

  function Concat(ps: seq<seq<Byte>>): seq<Byte> {
    if ps == [] then [] else ps[0] + Concat(ps[1..])
  }

  lemma {:induction false} ConcatAppend(ps: seq<seq<Byte>>, p: seq<Byte>)
    ensures Concat(ps + [p]) == Concat(ps) + p
  {
    if ps == [] {
      assert Concat([p]) == p + Concat([]);
    } else {
      assert (ps + [p])[1..] == ps[1..] + [p];
      ConcatAppend(ps[1..], p);
    }
  }

  /** The beginning of a packet of which the rest is still to come. */
  predicate IsPartial(tail: seq<Byte>) {
    |tail| < HEADER_SIZE || (tail[..SYNC_SIZE] == SYNC && |tail| < HEADER_SIZE + BodyLength(TypeOf(tail[4..6])))
  }

  lemma PartOfPacket(p: seq<Byte>, k: nat)
    requires IsPacket(p) && k < |p|
    ensures IsPartial(p[..k])
  {
    if k >= HEADER_SIZE {
      assert p[..k][..SYNC_SIZE] == p[..SYNC_SIZE] && p[..k][4..6] == p[4..6];
    }
  }

  // ----- How the system calls cut a transfer into pieces -----

  /** `replies` are what the coming calls of recv or send are willing to do: a negative number is an error, any other
      the most that call moves. Is a transfer of n bytes over within this many calls? */
  predicate Served(replies: seq<int>, n: int, calls: nat) {
    n <= 0 || (calls > 0 && replies != [] && replies[0] >= 0 && Served(replies[1..], n - replies[0], calls - 1))
  }

  /** The replies left over for the transfers that follow. */
  function Rest(replies: seq<int>, n: int): seq<int> {
    if n <= 0 || replies == [] then replies else Rest(replies[1..], n - replies[0])
  }

  function Min(a: int, b: int): int {
    if a < b then a else b
  }

  function Sum(xs: seq<int>): int {
    if xs == [] then 0 else xs[0] + Sum(xs[1..])
  }

  /** The first k calls bring n bytes, and none of them fails. */
  predicate Enough(replies: seq<int>, n: int, k: nat) {
    k <= |replies| && (forall i :: 0 <= i < k ==> replies[i] >= 0) && Sum(replies[..k]) >= n
  }

  lemma {:induction false} EnoughServes(replies: seq<int>, n: int, calls: nat, k: nat)
    requires k <= calls && Enough(replies, n, k)
    ensures Served(replies, n, calls)
  {
    if n > 0 {
      assert replies[..k][1..] == replies[1..][..k - 1];
      EnoughServes(replies[1..], n - replies[0], calls - 1, k - 1);
    }
  }

  lemma {:induction false} ServedIsEnough(replies: seq<int>, n: int, calls: nat) returns (k: nat)
    requires Served(replies, n, calls)
    ensures k <= calls && Enough(replies, n, k)
  {
    if n <= 0 {
      k := 0;
    } else {
      var j := ServedIsEnough(replies[1..], n - replies[0], calls - 1);
      k := j + 1;
      assert replies[..k][1..] == replies[1..][..j];
      assert forall i :: 0 < i < k ==> replies[i] == replies[1..][i - 1];
    }
  }

  /** A transfer is served exactly when some number of calls within the limit brings all its bytes. */
  lemma ServedIff(replies: seq<int>, n: int, calls: nat)
    ensures Served(replies, n, calls) <==> exists k: nat :: k <= calls && Enough(replies, n, k)
  {
    if Served(replies, n, calls) {
      var k := ServedIsEnough(replies, n, calls);
    }
    if k: nat :| k <= calls && Enough(replies, n, k) {
      EnoughServes(replies, n, calls, k);
    }
  }
}
