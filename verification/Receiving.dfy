/** recv_tcp of src/client_server.c and the loop of client_tcp_thread in src/client_thread.c that cuts the byte stream
    into packets and, after a bad header, looks for the next sync word. */
module Receiving {
  import opened WireFields
  import opened Frames

  /** recv_tcp gives up at this call of recv, even if the call would complete the read. */
  const CALLS: nat := 10

  /** `input` is what the peer has sent and the client has not read; `replies` are what the coming calls of recv are
      willing to do. */
  datatype Link = Link(input: seq<Byte>, replies: seq<int>)

  datatype Outcome = ReadErr | Got(data: seq<Byte>, link: Link)

  /** A read of n bytes: it takes the next n bytes if there are as many and nine calls of recv bring them. */
  function Read(l: Link, n: nat): Outcome {
    if |l.input| >= n && Served(l.replies, n, CALLS - 1)
    then Got(l.input[..n], Link(l.input[n..], Rest(l.replies, n)))
    else ReadErr
  }

  /** The tenth call of recv is an error even if it completes the read: nine have to do. */
  lemma NineCalls(l: Link, n: nat)
    ensures Read(l, n).Got? <==> |l.input| >= n && exists k: nat :: k <= 9 && Enough(l.replies, n, k)
    ensures Read(l, n).Got? ==> Read(l, n).data == l.input[..n] && Read(l, n).link.input == l.input[n..]
  {
    ServedIff(l.replies, n, 9);
  }

  // ----- Resynchronisation -----

  /** The next value of syncs when c arrives. */
  function Match(syncs: nat, c: Byte): (k: nat)
    requires syncs < SYNC_SIZE
    ensures k <= SYNC_SIZE
  {
    if c == SYNC[syncs] then syncs + 1 else 0
  }

  /** The loop over single bytes. */
  function Scan(l: Link, syncs: nat): Outcome
    requires syncs <= SYNC_SIZE
    decreases |l.input|
  {
    if syncs == SYNC_SIZE then Got([], l)
    else
      match Read(l, 1)
      case ReadErr => ReadErr
      case Got(c, rest) => Scan(rest, Match(syncs, c[0]))
  }

  /** How many bytes of s the loop reads before it stops; -1 if s does not make it stop. */
  function Stop(syncs: nat, s: seq<Byte>): (m: int)
    requires syncs <= SYNC_SIZE
    ensures -1 <= m <= |s|
    decreases |s|
  {
    if syncs == SYNC_SIZE then 0
    else if s == [] then -1
    else
      var m := Stop(Match(syncs, s[0]), s[1..]);
      if m < 0 then -1 else m + 1
  }

  /** The value of syncs after s, of which no part makes the loop stop. */
  function After(syncs: nat, s: seq<Byte>): (k: nat)
    requires syncs < SYNC_SIZE && Stop(syncs, s) < 0
    ensures k < SYNC_SIZE
    decreases |s|
  {
    if s == [] then syncs
    else
      assert Stop(SYNC_SIZE, s[1..]) == 0;
      After(Match(syncs, s[0]), s[1..])
  }

  /** The sync word is at s[i..]. */
  predicate SyncAt(s: seq<Byte>, i: int) {
    0 <= i <= |s| - 4 && s[i] == 0xFA && s[i + 1] == 0xFA && s[i + 2] == 0xAF && s[i + 3] == 0xAF
  }

  /** The last k bytes of t[..i] are the first k of the sync word. */
  predicate Matched(t: seq<Byte>, i: nat, k: nat)
    requires k <= i <= |t| && k <= SYNC_SIZE
  {
    forall j :: 0 <= j < k ==> t[i - k + j] == SYNC[j]
  }

  /** When the loop stops, the last four bytes it has read are the sync word. */
  lemma {:induction false} StopsOnSync(t: seq<Byte>, i: nat, syncs: nat)
    requires syncs <= i <= |t| && syncs <= SYNC_SIZE && Matched(t, i, syncs)
    requires Stop(syncs, t[i..]) >= 0
    ensures SyncAt(t, i + Stop(syncs, t[i..]) - SYNC_SIZE)
    decreases |t| - i
  {
    if syncs == SYNC_SIZE {
      assert t[i - 4 + 0] == SYNC[0] && t[i - 4 + 1] == SYNC[1] && t[i - 4 + 2] == SYNC[2] && t[i - 4 + 3] == SYNC[3];
    } else {
      assert t[i..][1..] == t[i + 1..];
      StopsOnSync(t, i + 1, Match(syncs, t[i]));
    }
  }

  /** The word occurs nowhere in s. */
  predicate NoSync(s: seq<Byte>) {
    forall i :: 0 <= i <= |s| ==> !SyncAt(s, i)
  }

  lemma NoSyncNoStop(s: seq<Byte>)
    requires NoSync(s)
    ensures Stop(0, s) < 0
  {
    assert s[0..] == s;
    if Stop(0, s) >= 0 {
      StopsOnSync(s, 0, 0);
    }
  }

  lemma {:induction false} StopAppend(syncs: nat, junk: seq<Byte>, s: seq<Byte>)
    requires syncs < SYNC_SIZE && Stop(syncs, junk) < 0
    ensures var m := Stop(After(syncs, junk), s);
            Stop(syncs, junk + s) == if m < 0 then -1 else |junk| + m
    decreases |junk|
  {
    if junk == [] {
      assert junk + s == s;
    } else {
      assert (junk + s)[1..] == junk[1..] + s;
      StopAppend(Match(syncs, junk[0]), junk[1..], s);
    }
  }

  lemma StopStep(syncs: nat, c: Byte, s: seq<Byte>)
    requires syncs < SYNC_SIZE
    ensures var m := Stop(Match(syncs, c), s);
            Stop(syncs, [c] + s) == if m < 0 then -1 else m + 1
  {
    assert ([c] + s)[1..] == s;
  }

  lemma StopAtWord(syncs: nat, s: seq<Byte>)
    requires syncs < SYNC_SIZE
    ensures Stop(syncs, SYNC + s) == SYNC_SIZE <==> syncs == 0
  {
    var s3 := [0xAF] + s;
    var s2 := [0xAF] + s3;
    var s1 := [0xFA] + s2;
    assert SYNC + s == [0xFA] + s1;
    StopStep(syncs, 0xFA, s1);
    var k1 := Match(syncs, 0xFA);
    StopStep(k1, 0xFA, s2);
    var k2 := Match(k1, 0xFA);
    StopStep(k2, 0xAF, s3);
    var k3 := Match(k2, 0xAF);
    StopStep(k3, 0xAF, s);
  }

  /** The loop stops at the sync word behind the junk exactly when the junk leaves it with nothing matched. */
  lemma SeesWordIff(junk: seq<Byte>, s: seq<Byte>)
    requires Stop(0, junk) < 0
    ensures Stop(0, junk + (SYNC + s)) == |junk| + SYNC_SIZE <==> After(0, junk) == 0
  {
    StopAppend(0, junk, SYNC + s);
    StopAtWord(After(0, junk), s);
  }

  predicate SyncByte(c: Byte) {
    c == 0xFA || c == 0xAF
  }

  /** Junk ends in a byte that is no part of the sync word, followed by n bytes FA. */
  predicate EndsIn(junk: seq<Byte>, n: nat) {
    && n <= |junk|
    && (forall i :: |junk| - n <= i < |junk| ==> junk[i] == 0xFA)
    && (n < |junk| ==> !SyncByte(junk[|junk| - n - 1]))
  }

  lemma {:induction false} AfterRun(syncs: nat, junk: seq<Byte>)
    requires syncs < 3 && forall i :: 0 <= i < |junk| ==> junk[i] == 0xFA
    ensures Stop(syncs, junk) < 0 && After(syncs, junk) == (syncs + |junk|) % 3
    decreases |junk|
  {
    if junk != [] {
      AfterRun(Match(syncs, junk[0]), junk[1..]);
    }
  }

  lemma {:induction false} AfterEnd(syncs: nat, junk: seq<Byte>, n: nat)
    requires syncs < SYNC_SIZE && EndsIn(junk, n) && Stop(syncs, junk) < 0 && (n == |junk| ==> syncs == 0)
    ensures After(syncs, junk) == n % 3
    decreases |junk|
  {
    if n == |junk| {
      AfterRun(0, junk);
    } else {
      var k := Match(syncs, junk[0]);
      AfterEnd(k, junk[1..], n);
    }
  }

  /** Behind junk that ends in n bytes FA the word is seen exactly when n is a multiple of three: with one or two of
      them the first bytes of the word are taken for the middle of another one. */
  lemma SeesWordBehindRun(junk: seq<Byte>, n: nat, s: seq<Byte>)
    requires Stop(0, junk) < 0 && EndsIn(junk, n)
    ensures Stop(0, junk + (SYNC + s)) == |junk| + SYNC_SIZE <==> n % 3 == 0
  {
    SeesWordIff(junk, s);
    AfterEnd(0, junk, n);
  }

  lemma {:induction false} StopStays(syncs: nat, s: seq<Byte>, more: seq<Byte>)
    requires syncs <= SYNC_SIZE && Stop(syncs, s) >= 0
    ensures Stop(syncs, s + more) == Stop(syncs, s)
    decreases |s|
  {
    if syncs < SYNC_SIZE {
      assert (s + more)[1..] == s[1..] + more;
      StopStays(Match(syncs, s[0]), s[1..], more);
    }
  }

  /** The loop never runs past a sync word that follows a byte other than FA or AF, or starts the scanned part. */
  lemma NeverPast(s: seq<Byte>, i: nat)
    requires SyncAt(s, i) && (i == 0 || !SyncByte(s[i - 1]))
    ensures 0 <= Stop(0, s) <= i + SYNC_SIZE
  {
    var junk, rest := s[..i], s[i + SYNC_SIZE..];
    assert s == junk + (SYNC + rest);
    if Stop(0, junk) >= 0 {
      StopStays(0, junk, SYNC + rest);
    } else {
      AfterEnd(0, junk, 0);
      SeesWordIff(junk, rest);
    }
  }

  /** The bytes FA FA FA AF AF contain the word, and the loop does not see it. */
  lemma WordMissed()
    ensures Stop(0, [0xFA] + (SYNC + [])) == -1 && After(0, [0xFA] + (SYNC + [])) == 0
  {
    var s: seq<Byte> := [0xFA, 0xFA, 0xFA, 0xAF, 0xAF];
    assert [0xFA] + (SYNC + []) == s;
    assert s[1..] == [0xFA, 0xFA, 0xAF, 0xAF] && s[1..][1..] == [0xFA, 0xAF, 0xAF];
    assert s[1..][1..][1..] == [0xAF, 0xAF] && s[1..][1..][1..][1..] == [0xAF];
    assert Stop(0, [0xAF]) == -1 && Stop(0, [0xAF, 0xAF]) == -1;
    assert Stop(2, [0xFA, 0xAF, 0xAF]) == -1;
    assert After(0, [0xAF]) == 0 && After(0, [0xAF, 0xAF]) == 0 && After(2, [0xFA, 0xAF, 0xAF]) == 0;
  }

  // ----- The receive loop -----

  /** The header fields after the sync word, once the client is in step with the stream again. */
  function Fields(l: Link): Outcome {
    match Read(l, HEADER_SIZE)
    case ReadErr => ReadErr
    case Got(header, rest) =>
      if header[..SYNC_SIZE] == SYNC then Got(header[SYNC_SIZE..], rest)
      else
        match Scan(rest, 0)
        case ReadErr => ReadErr
        case Got(_, found) => Read(found, HEADER_SIZE - SYNC_SIZE)
  }

  lemma {:induction false} ScanShrinks(l: Link, syncs: nat)
    requires syncs <= SYNC_SIZE
    ensures var o := Scan(l, syncs); o.Got? ==> |o.link.input| <= |l.input|
    decreases |l.input|
  {
    if syncs < SYNC_SIZE && Read(l, 1).Got? {
      ScanShrinks(Read(l, 1).link, Match(syncs, Read(l, 1).data[0]));
    }
  }

  lemma FieldsShrink(l: Link)
    ensures var o := Fields(l);
            o.Got? ==> |o.link.input| < |l.input| && |o.data| == HEADER_SIZE - SYNC_SIZE
  {
    if Read(l, HEADER_SIZE).Got? {
      ScanShrinks(Read(l, HEADER_SIZE).link, 0);
    }
  }

  /** The next packet without its sync word. */
  function ReadPacket(l: Link): Outcome {
    match Fields(l)
    case ReadErr => ReadErr
    case Got(fields, rest) =>
      FieldsShrink(l);
      match Read(rest, BodyLength(TypeOf(fields[..2])))
      case ReadErr => ReadErr
      case Got(body, rest') => Got(fields + body, rest')
  }

  /** What the client gets until a read fails. */
  function Receive(l: Link): seq<seq<Byte>>
    decreases |l.input|
  {
    match ReadPacket(l)
    case ReadErr => []
    case Got(p, rest) =>
      FieldsShrink(l);
      [p] + Receive(rest)
  }

  lemma ReceiveStep(l: Link, sofar: seq<seq<Byte>>)
    ensures match ReadPacket(l)
            case ReadErr => sofar + Receive(l) == sofar
            case Got(p, rest) =>
              |rest.input| < |l.input| && (sofar + [p]) + Receive(rest) == sofar + Receive(l)
  {
    FieldsShrink(l);
    match ReadPacket(l)
    case ReadErr =>
    case Got(p, rest) =>
      assert (sofar + [p]) + Receive(rest) == sofar + ([p] + Receive(rest));
  }

  // ----- Which schedules the reads survive -----

  /** A series of reads of these sizes, each within nine calls of recv. */
  predicate Patient(replies: seq<int>, sizes: seq<nat>)
    decreases |sizes|
  {
    sizes == [] ||
    (Served(replies, sizes[0], CALLS - 1) && Patient(Rest(replies, sizes[0]), sizes[1..]))
  }

  function Left(replies: seq<int>, sizes: seq<nat>): seq<int>
    decreases |sizes|
  {
    if sizes == [] then replies else Left(Rest(replies, sizes[0]), sizes[1..])
  }

  lemma {:induction false} PatientAppend(replies: seq<int>, a: seq<nat>, b: seq<nat>)
    ensures Patient(replies, a + b) <==> Patient(replies, a) && Patient(Left(replies, a), b)
    ensures Left(replies, a + b) == Left(Left(replies, a), b)
    decreases |a|
  {
    if a == [] {
      assert a + b == b;
    } else {
      assert (a + b)[1..] == a[1..] + b;
      PatientAppend(Rest(replies, a[0]), a[1..], b);
    }
  }

  function Ones(n: nat): seq<nat> {
    if n == 0 then [] else [1] + Ones(n - 1)
  }

  /** The loop over single bytes ends if and only if the input makes it stop and each byte arrives in time; it has
      then read just the bytes that make it stop. */
  lemma {:induction false} ScanIs(l: Link, syncs: nat)
    requires syncs <= SYNC_SIZE
    ensures var m := Stop(syncs, l.input);
            Scan(l, syncs) == if m >= 0 && Patient(l.replies, Ones(m))
                              then Got([], Link(l.input[m..], Left(l.replies, Ones(m))))
                              else ReadErr
    decreases |l.input|
  {
    if syncs == SYNC_SIZE {
      assert l.input[0..] == l.input;
    } else if l.input != [] {
      var k, rest := Match(syncs, l.input[0]), Link(l.input[1..], Rest(l.replies, 1));
      ScanIs(rest, k);
      var m := Stop(syncs, l.input);
      if m >= 0 {
        assert Ones(m)[1..] == Ones(m - 1);
        assert l.input[m..] == rest.input[m - 1..];
      }
    }
  }

  /** When the resynchronisation ends, the last four bytes read are the sync word. */
  lemma ScanEndsOnSync(l: Link)
    requires Scan(l, 0).Got?
    ensures SyncAt(l.input, |l.input| - |Scan(l, 0).link.input| - SYNC_SIZE)
  {
    ScanIs(l, 0);
    assert l.input[0..] == l.input;
    StopsOnSync(l.input, 0, 0);
  }

  // ----- One packet -----

  function PacketSizes(p: seq<Byte>): (sizes: seq<nat>)
    requires IsPacket(p)
  {
    [HEADER_SIZE, |p| - HEADER_SIZE]
  }

  lemma PatientTwo(replies: seq<int>, m: nat, n: nat)
    ensures Patient(replies, [m, n]) <==> Served(replies, m, CALLS - 1) && Served(Rest(replies, m), n, CALLS - 1)
    ensures Left(replies, [m, n]) == Rest(Rest(replies, m), n)
  {
    assert [m, n][1..] == [n] && [n][1..] == [];
    var rest := Rest(replies, m);
    assert Patient(rest, [n]) <==> Served(rest, n, CALLS - 1) && Patient(Rest(rest, n), []);
    assert Left(rest, [n]) == Left(Rest(rest, n), []);
  }

  lemma ReadsFront(l: Link, a: seq<Byte>, b: seq<Byte>)
    requires l.input == a + b
    ensures Read(l, |a|) == if Served(l.replies, |a|, CALLS - 1) then Got(a, Link(b, Rest(l.replies, |a|))) else ReadErr
  {
  }

  /** A packet is its sync word, its header fields and its body, and the type in the fields gives the body's length. */
  lemma Parts(p: seq<Byte>)
    requires IsPacket(p)
    ensures var fields, body := p[SYNC_SIZE..HEADER_SIZE], p[HEADER_SIZE..];
            && p[..HEADER_SIZE] == SYNC + fields && p == p[..HEADER_SIZE] + body && fields + body == Content(p)
            && BodyLength(TypeOf(fields[..2])) == |body| == |p| - HEADER_SIZE
  {
    assert p[SYNC_SIZE..HEADER_SIZE][..2] == p[4..6];
  }

  lemma ReadsPacket(l: Link, p: seq<Byte>, more: seq<Byte>)
    requires IsPacket(p) && l.input == p + more
    ensures ReadPacket(l) == if Patient(l.replies, PacketSizes(p))
                             then Got(Content(p), Link(more, Left(l.replies, PacketSizes(p))))
                             else ReadErr
  {
    Parts(p);
    PatientTwo(l.replies, HEADER_SIZE, |p| - HEADER_SIZE);
    var header, body := p[..HEADER_SIZE], p[HEADER_SIZE..];
    assert l.input == header + (body + more);
    ReadsFront(l, header, body + more);
    ReadsFront(Link(body + more, Rest(l.replies, HEADER_SIZE)), body, more);
    assert header[..SYNC_SIZE] == SYNC && header[SYNC_SIZE..] == p[SYNC_SIZE..HEADER_SIZE];
  }

  lemma PartialFails(l: Link)
    requires IsPartial(l.input)
    ensures ReadPacket(l).ReadErr?
  {
    if |l.input| >= HEADER_SIZE {
      var header := l.input[..HEADER_SIZE];
      assert header[..SYNC_SIZE] == l.input[..SYNC_SIZE];
      assert header[SYNC_SIZE..][..2] == l.input[4..6];
    }
  }

  // ----- Many packets -----

  function Sizes(ps: seq<seq<Byte>>): seq<nat>
    requires ArePackets(ps)
  {
    if ps == [] then [] else PacketSizes(ps[0]) + Sizes(ps[1..])
  }

  lemma ContentsStep(ps: seq<seq<Byte>>)
    requires ArePackets(ps) && ps != []
    ensures ArePackets(ps[1..]) && Contents(ps) == [Content(ps[0])] + Contents(ps[1..])
  {
  }

  /** From a stream of whole packets the client gets a prefix of these packets and nothing else, and it gets all of
      them if and only if no read needs more than nine calls of recv. */
  lemma {:induction false} ReceivesPackets(l: Link, ps: seq<seq<Byte>>, tail: seq<Byte>)
    requires ArePackets(ps) && IsPartial(tail) && l.input == Concat(ps) + tail
    ensures Receive(l) <= Contents(ps)
    ensures Receive(l) == Contents(ps) <==> Patient(l.replies, Sizes(ps))
    decreases |ps|
  {
    if ps == [] {
      assert l.input == tail;
      PartialFails(l);
    } else {
      var p, more := ps[0], Concat(ps[1..]) + tail;
      assert l.input == p + more;
      ReadsPacket(l, p, more);
      PatientAppend(l.replies, PacketSizes(p), Sizes(ps[1..]));
      ContentsStep(ps);
      if Patient(l.replies, PacketSizes(p)) {
        var rest := Link(more, Left(l.replies, PacketSizes(p)));
        ReceivesPackets(rest, ps[1..], tail);
        assert Receive(l) == [Content(p)] + Receive(rest);
        assert (Receive(l) == Contents(ps)) <==> (Receive(l)[1..] == Contents(ps)[1..]);
      }
    }
  }

  // ----- A stream that is out of step -----

  /** The reads that get the client through a bad header and n bytes of junk to the end of packet p. */
  function ResyncSizes(n: nat, p: seq<Byte>): seq<nat>
    requires IsPacket(p)
  {
    [HEADER_SIZE] + (Ones(n + SYNC_SIZE) + [HEADER_SIZE - SYNC_SIZE, |p| - HEADER_SIZE])
  }

  /** A bad header, and behind it junk that does not make the loop stop and leaves nothing matched. It may contain
      sync words that the loop does not see. */
  predicate OutOfStep(bad: seq<Byte>, junk: seq<Byte>) {
    |bad| == HEADER_SIZE && bad[..SYNC_SIZE] != SYNC && Stop(0, junk) < 0 && After(0, junk) == 0
  }

  lemma ScansToWord(l: Link, junk: seq<Byte>, s: seq<Byte>)
    requires Stop(0, junk) < 0 && After(0, junk) == 0 && l.input == junk + (SYNC + s)
    ensures var ones := Ones(|junk| + SYNC_SIZE);
            Scan(l, 0) == if Patient(l.replies, ones) then Got([], Link(s, Left(l.replies, ones))) else ReadErr
  {
    SeesWordIff(junk, s);
    ScanIs(l, 0);
    BehindWord(junk, s);
  }

  lemma BehindWord(junk: seq<Byte>, s: seq<Byte>)
    ensures (junk + (SYNC + s))[|junk| + SYNC_SIZE..] == s
  {
  }

  lemma ReadsAfterJunk(l: Link, bad: seq<Byte>, junk: seq<Byte>, p: seq<Byte>, more: seq<Byte>)
    requires OutOfStep(bad, junk)
    requires IsPacket(p) && l.input == bad + (junk + (p + more))
    ensures ReadPacket(l) == if Patient(l.replies, ResyncSizes(|junk|, p))
                             then Got(Content(p), Link(more, Left(l.replies, ResyncSizes(|junk|, p))))
                             else ReadErr
  {
    Parts(p);
    var fields, body := p[SYNC_SIZE..HEADER_SIZE], p[HEADER_SIZE..];
    var two, ones := [|fields|, |body|], Ones(|junk| + SYNC_SIZE);
    ReadsFront(l, bad, junk + (p + more));
    var rest := Link(junk + (p + more), Rest(l.replies, HEADER_SIZE));
    PatientAppend(l.replies, [HEADER_SIZE], ones + two);
    PatientAppend(rest.replies, ones, two);
    assert Left(l.replies, [HEADER_SIZE]) == rest.replies;
    assert p + more == SYNC + (fields + (body + more));
    ScansToWord(rest, junk, fields + (body + more));
    var found := Link(fields + (body + more), Left(rest.replies, ones));
    PatientTwo(found.replies, |fields|, |body|);
    ReadsFront(found, fields, body + more);
    ReadsFront(Link(body + more, Rest(found.replies, |fields|)), body, more);
  }

  /** Out of step, the client finds the next packet behind the junk, and from there on it gets what it would have got
      in step. */
  lemma Resynchronises(l: Link, bad: seq<Byte>, junk: seq<Byte>, ps: seq<seq<Byte>>, tail: seq<Byte>)
    requires OutOfStep(bad, junk)
    requires ps != [] && ArePackets(ps) && IsPartial(tail) && l.input == bad + (junk + (Concat(ps) + tail))
    ensures Receive(l) <= Contents(ps)
    ensures Receive(l) == Contents(ps)
            <==> Patient(l.replies, ResyncSizes(|junk|, ps[0]) + Sizes(ps[1..]))
  {
    var p, more := ps[0], Concat(ps[1..]) + tail;
    assert Concat(ps) + tail == p + more;
    ReadsAfterJunk(l, bad, junk, p, more);
    PatientAppend(l.replies, ResyncSizes(|junk|, p), Sizes(ps[1..]));
    ContentsStep(ps);
    if Patient(l.replies, ResyncSizes(|junk|, p)) {
      var rest := Link(more, Left(l.replies, ResyncSizes(|junk|, p)));
      ReceivesPackets(rest, ps[1..], tail);
      assert Receive(l) == [Content(p)] + Receive(rest);
      assert (Receive(l) == Contents(ps)) <==> (Receive(l)[1..] == Contents(ps)[1..]);
    }
  }

  /** Junk without the sync word that ends in some other byte and then n bytes FA, n a multiple of three, is such
      junk; so is any junk that the loop has passed and that ends so. */
  lemma EasilyOutOfStep(bad: seq<Byte>, junk: seq<Byte>, n: nat)
    requires |bad| == HEADER_SIZE && bad[..SYNC_SIZE] != SYNC
    requires (NoSync(junk) || Stop(0, junk) < 0) && EndsIn(junk, n) && n % 3 == 0
    ensures OutOfStep(bad, junk)
  {
    if NoSync(junk) {
      NoSyncNoStop(junk);
    }
    AfterEnd(0, junk, n);
  }

  /** For instance after a packet whose sync word was missed: the next one is found if the bytes before it end in a
      byte other than FA and AF. */
  lemma FoundAfterMissed(bad: seq<Byte>, body: seq<Byte>)
    requires |bad| == HEADER_SIZE && bad[..SYNC_SIZE] != SYNC
    requires NoSync(body) && EndsIn(body, 0) && body != []
    ensures var junk := ([0xFA] + (SYNC + [])) + body;
            SyncAt(junk, 1) && OutOfStep(bad, junk)
  {
    var missed := [0xFA] + (SYNC + []);
    WordMissed();
    StopAppend(0, missed, body);
    NoSyncNoStop(body);
    EasilyOutOfStep(bad, missed + body, 0);
  }

  // ----- A packet that is missed -----

  lemma {:induction false} AfterAppend(syncs: nat, a: seq<Byte>, b: seq<Byte>)
    requires syncs < SYNC_SIZE && Stop(syncs, a) < 0 && Stop(After(syncs, a), b) < 0
    ensures Stop(syncs, a + b) < 0 && After(syncs, a + b) == After(After(syncs, a), b)
    decreases |a|
  {
    if a == [] {
      assert a + b == b;
    } else {
      assert (a + b)[1..] == a[1..] + b;
      assert Stop(SYNC_SIZE, a[1..]) == 0;
      AfterAppend(Match(syncs, a[0]), a[1..], b);
    }
  }

  lemma AfterByte(syncs: nat, c: Byte)
    requires syncs < SYNC_SIZE && Match(syncs, c) < SYNC_SIZE
    ensures Stop(syncs, [c]) < 0 && After(syncs, [c]) == Match(syncs, c)
  {
    assert [c][1..] == [];
    assert Stop(Match(syncs, c), []) == -1;
  }

  /** With something matched already the loop takes no notice of the word, and has nothing matched behind it. */
  lemma AfterWord(syncs: nat)
    requires 0 < syncs < SYNC_SIZE
    ensures Stop(syncs, SYNC) < 0 && After(syncs, SYNC) == 0
  {
    var k1 := Match(syncs, 0xFA);
    var k2 := Match(k1, 0xFA);
    AfterByte(syncs, 0xFA);
    AfterByte(k1, 0xFA);
    AfterAppend(syncs, [0xFA], [0xFA]);
    AfterByte(k2, 0xAF);
    AfterAppend(syncs, [0xFA] + [0xFA], [0xAF]);
    var k3 := Match(k2, 0xAF);
    AfterByte(k3, 0xAF);
    AfterAppend(syncs, [0xFA] + [0xFA] + [0xAF], [0xAF]);
    assert SYNC == [0xFA] + [0xFA] + [0xAF] + [0xAF];
  }

  /** A packet with the sync word at its start only, that ends in a byte which is no part of it. */
  predicate Tidy(p: seq<Byte>) {
    IsPacket(p) && NoSync(p[SYNC_SIZE..]) && !SyncByte(p[|p| - 1])
  }

  lemma TidyLeavesNothing(p: seq<Byte>)
    requires Tidy(p)
    ensures Stop(0, p[SYNC_SIZE..]) < 0 && After(0, p[SYNC_SIZE..]) == 0
  {
    var rest := p[SYNC_SIZE..];
    NoSyncNoStop(rest);
    assert rest[|rest| - 1] == p[|p| - 1];
    AfterEnd(0, rest, 0);
  }

  /** Behind junk that leaves something matched a tidy packet is passed like more junk, and leaves nothing matched. */
  lemma TidyIsJunk(junk: seq<Byte>, p: seq<Byte>)
    requires Stop(0, junk) < 0 && After(0, junk) > 0 && Tidy(p)
    ensures Stop(0, junk + p) < 0 && After(0, junk + p) == 0
  {
    AfterWord(After(0, junk));
    AfterAppend(0, junk, SYNC);
    TidyLeavesNothing(p);
    AfterAppend(0, junk + SYNC, p[SYNC_SIZE..]);
    assert p == SYNC + p[SYNC_SIZE..];
    Assoc(junk, SYNC, p[SYNC_SIZE..]);
  }

  /** If only the beginning of a packet follows the junk, nothing is received. */
  lemma NothingInTail(l: Link, bad: seq<Byte>, junk: seq<Byte>, tail: seq<Byte>)
    requires OutOfStep(bad, junk) && IsPartial(tail) && l.input == bad + (junk + tail)
    ensures Receive(l) == []
  {
    ReadsFront(l, bad, junk + tail);
    if Read(l, HEADER_SIZE).Got? {
      var rest := Link(junk + tail, Rest(l.replies, HEADER_SIZE));
      ScanIs(rest, 0);
      StopAppend(0, junk, tail);
      var m := Stop(0, tail);
      if m >= 0 {
        assert (junk + tail)[|junk| + m..] == tail[m..];
        TailTooShort(Scan(rest, 0), tail, m);
      }
    }
  }

  lemma TailTooShort(found: Outcome, tail: seq<Byte>, m: nat)
    requires IsPartial(tail) && m == Stop(0, tail) && (found.Got? ==> found.link.input == tail[m..])
    ensures found.Got? && Read(found.link, HEADER_SIZE - SYNC_SIZE).Got? ==>
              var fields := Read(found.link, HEADER_SIZE - SYNC_SIZE);
              Read(fields.link, BodyLength(TypeOf(fields.data[..2]))).ReadErr?
  {
    assert tail[0..] == tail;
    StopsOnSync(tail, 0, 0);
    if |tail| >= HEADER_SIZE {
      assert tail == SYNC + tail[SYNC_SIZE..];
      StopAtWord(0, tail[SYNC_SIZE..]);
      assert tail[m..][..8][..2] == tail[4..6];
    }
  }

  /** Out of step behind bytes that the loop passes and that leave something matched, the client misses the packet p.
      If p is tidy, it finds the next one, and from there on it gets what it would have got in step. */
  lemma MissesFirst(l: Link, bad: seq<Byte>, junk: seq<Byte>, p: seq<Byte>, more: seq<seq<Byte>>, tail: seq<Byte>)
    requires |bad| == HEADER_SIZE && bad[..SYNC_SIZE] != SYNC && Stop(0, junk) < 0 && After(0, junk) > 0
    requires Tidy(p) && ArePackets(more) && IsPartial(tail)
    requires l.input == bad + (junk + (p + (Concat(more) + tail)))
    ensures Receive(l) <= Contents(more)
    ensures more != [] ==>
              (Receive(l) == Contents(more)
               <==> Patient(l.replies, ResyncSizes(|junk + p|, more[0]) + Sizes(more[1..])))
  {
    TidyIsJunk(junk, p);
    Assoc(junk, p, Concat(more) + tail);
    if more == [] {
      assert Concat(more) + tail == tail;
      NothingInTail(l, bad, junk + p, tail);
    } else {
      Resynchronises(l, bad, junk + p, more, tail);
    }
  }

  /** So behind any bytes that the loop passes one packet at most is missed. */
  lemma MissesOneAtMost(l: Link, bad: seq<Byte>, junk: seq<Byte>, p: seq<Byte>, more: seq<seq<Byte>>, tail: seq<Byte>)
    requires |bad| == HEADER_SIZE && bad[..SYNC_SIZE] != SYNC && Stop(0, junk) < 0
    requires Tidy(p) && ArePackets(more) && IsPartial(tail)
    requires l.input == bad + (junk + (p + (Concat(more) + tail)))
    ensures Receive(l) <= if After(0, junk) == 0 then [Content(p)] + Contents(more) else Contents(more)
  {
    if After(0, junk) == 0 {
      var ps := [p] + more;
      assert ps[1..] == more;
      Assoc(p, Concat(more), tail);
      ContentsStep(ps);
      Resynchronises(l, bad, junk, ps, tail);
    } else {
      MissesFirst(l, bad, junk, p, more, tail);
    }
  }

  // ----- The client -----

  /** b with `data` over what was at `from`. */
  function Splice(b: seq<Byte>, from: nat, data: seq<Byte>): (c: seq<Byte>)
    requires from + |data| <= |b|
    ensures |c| == |b|
  {
    b[..from] + data + b[from + |data|..]
  }

  lemma SpliceTwice(b: seq<Byte>, from: nat, d: seq<Byte>, e: seq<Byte>)
    requires from + |d| + |e| <= |b|
    ensures Splice(Splice(b, from, d), from + |d|, e) == Splice(b, from, d + e)
  {
  }

  /** After `count` calls of recv, `got` of the `bytes` bytes have been read from `start`, and `l` is left. */
  ghost predicate Progress(start: Link, bytes: nat, l: Link, got: nat, count: nat) {
    && got <= bytes && got <= |start.input| && count < CALLS && l.input == start.input[got..]
    && (|start.input| >= bytes ==>
          && (Served(start.replies, bytes, CALLS - 1) <==> Served(l.replies, bytes - got, CALLS - 1 - count))
          && Rest(start.replies, bytes) == Rest(l.replies, bytes - got))
  }

  lemma ProgressStep(start: Link, bytes: nat, l: Link, got: nat, count: nat, rc: nat)
    requires Progress(start, bytes, l, got, count) && got < bytes && count + 1 < CALLS
    requires l.replies != [] && l.replies[0] >= 0 && rc == Min(l.replies[0], Min(bytes - got, |l.input|))
    ensures Progress(start, bytes, Link(l.input[rc..], l.replies[1..]), got + rc, count + 1)
  {
    if |start.input| >= bytes {
      var n := bytes - got;
      assert rc == Min(l.replies[0], n);
      assert Served(l.replies, n, CALLS - 1 - count) <==> Served(l.replies[1..], n - l.replies[0], CALLS - 2 - count);
      assert Rest(l.replies, n) == Rest(l.replies[1..], n - l.replies[0]);
    }
  }

  lemma ProgressFails(start: Link, bytes: nat, l: Link, got: nat, count: nat)
    requires Progress(start, bytes, l, got, count) && got < bytes
    requires l.replies == [] || l.replies[0] < 0 || count == CALLS - 1
    ensures Read(start, bytes).ReadErr?
  {
  }

  class Client {
    var input: seq<Byte>
    var replies: seq<int>
    /** The packets that reached the dispatch, each without its sync word. */
    var packets: seq<seq<Byte>>

    ghost function Abstract(): Link
      reads this
    {
      Link(input, replies)
    }

    constructor (link: Link)
      ensures Abstract() == link && packets == []
    {
      input, replies, packets := link.input, link.replies, [];
    }

    /** recv(s, &buffer[from], upto - from, 0) */
    method Recv(buffer: array<Byte>, from: nat, upto: nat) returns (rc: int)
      requires from <= upto <= buffer.Length
      modifies this`input, this`replies, buffer
      ensures rc <= |old(input)| && rc <= upto - from
      ensures input == if rc < 0 then old(input) else old(input)[rc..]
      ensures buffer[..] == if rc < 0 then old(buffer[..]) else Splice(old(buffer[..]), from, old(input)[..rc])
      ensures old(replies) == [] ==> rc < 0 && replies == []
      ensures old(replies) != [] ==> replies == old(replies)[1..]
      ensures old(replies) != [] && old(replies)[0] < 0 ==> rc < 0
      ensures old(replies) != [] && old(replies)[0] >= 0 ==> rc == Min(old(replies)[0], Min(upto - from, |old(input)|))
    {
      if replies == [] {
        return -1;
      }
      rc := if replies[0] < 0 then -1 else Min(replies[0], Min(upto - from, |input|));
      replies := replies[1..];
      if rc >= 0 {
        forall k | 0 <= k < rc {
          buffer[from + k] := input[k];
        }
        input := input[rc..];
      }
    }

    /** One more call of recv, the bytes of `start` up to `got` being in the buffer. */
    method RecvMore(buffer: array<Byte>, from: nat, bytes: nat, got: nat, count: nat, ghost start: Link,
                    ghost content: seq<Byte>)
      returns (rc: int)
      requires from + bytes <= buffer.Length == |content|
      requires Progress(start, bytes, Abstract(), got, count) && got < bytes
      requires buffer[..] == Splice(content, from, start.input[..got])
      modifies this`input, this`replies, buffer
      ensures rc < 0 || count + 1 == CALLS ==> Read(start, bytes).ReadErr?
      ensures rc >= 0 ==> got + rc <= bytes && got + rc <= |start.input|
      ensures rc >= 0 ==> buffer[..] == Splice(content, from, start.input[..got + rc])
      ensures rc >= 0 && count + 1 < CALLS ==> Progress(start, bytes, Abstract(), got + rc, count + 1)
    {
      ghost var before := Abstract();
      rc := Recv(buffer, from + got, from + bytes);
      if rc < 0 || count + 1 == CALLS {
        ProgressFails(start, bytes, before, got, count);
      } else {
        ProgressStep(start, bytes, before, got, count, rc);
      }
      if rc >= 0 {
        SpliceTwice(content, from, start.input[..got], before.input[..rc]);
        assert start.input[..got] + before.input[..rc] == start.input[..got + rc];
      }
    }

    /** It brings the next `bytes` bytes of the stream if they are there and nine calls of recv bring them;
        otherwise it returns -1. */
    method RecvTcp(buffer: array<Byte>, from: nat, bytes: nat) returns (got: int)
      requires from + bytes <= buffer.Length
      modifies this`input, this`replies, buffer
      ensures match Read(old(Abstract()), bytes)
              case ReadErr => got == -1
              case Got(data, link) =>
                got == bytes && Abstract() == link && buffer[..] == Splice(old(buffer[..]), from, data)
    {
      ghost var start, content := Abstract(), buffer[..];
      got := 0;
      var count := 0;
      while got != bytes
        invariant 0 <= got && Progress(start, bytes, Abstract(), got, count)
        invariant buffer[..] == Splice(content, from, start.input[..got])
        decreases CALLS - count
      {
        var rc := RecvMore(buffer, from, bytes, got, count, start, content);
        count := count + 1;
        if rc < 0 || count >= CALLS {
          got := -1;
          break;
        }
        got := got + rc;
      }
    }

    /** Byte by byte to the end of the next sync word that the loop sees. */
    method FindSync() returns (ok: bool)
      modifies this`input, this`replies
      ensures match Scan(old(Abstract()), 0)
              case ReadErr => !ok
              case Got(_, link) => ok && Abstract() == link
    {
      var c := new Byte[1](_ => 0);
      var syncs := 0;
      while syncs != SYNC_SIZE
        invariant 0 <= syncs <= SYNC_SIZE && c.Length == 1
        invariant Scan(old(Abstract()), 0) == Scan(Abstract(), syncs)
        decreases |input|
      {
        ghost var before := Abstract();
        var got := RecvTcp(c, 0, 1);
        if got <= 0 {
          return false;
        }
        assert c[..][0] == Read(before, 1).data[0];
        if c[0] == SYNC[syncs] {
          syncs := syncs + 1;
        } else {
          syncs := 0;
        }
      }
      ok := true;
    }

    /** The header of the next packet; after a bad one the bytes of its sync word stay what they were. */
    method ReadHeader(header: array<Byte>) returns (ok: bool)
      requires header.Length == HEADER_SIZE
      modifies this`input, this`replies, header
      ensures match Fields(old(Abstract()))
              case ReadErr => !ok
              case Got(fields, link) => ok && Abstract() == link && header[SYNC_SIZE..] == fields
    {
      var got := RecvTcp(header, 0, HEADER_SIZE);
      if got <= 0 {
        return false;
      }
      if header[..SYNC_SIZE] != SYNC {
        ok := FindSync();
        if !ok {
          return;
        }
        got := RecvTcp(header, SYNC_SIZE, HEADER_SIZE - SYNC_SIZE);
        if got <= 0 {
          return false;
        }
      }
      ok := true;
    }

    /** A header and the body that its type calls for; a type without a body needs no second read. */
    method ReadOne(header: array<Byte>) returns (ok: bool, packet: seq<Byte>)
      requires header.Length == HEADER_SIZE
      modifies this`input, this`replies, header
      ensures match ReadPacket(old(Abstract()))
              case ReadErr => !ok
              case Got(p, link) => ok && packet == p && Abstract() == link
    {
      FieldsShrink(Abstract());
      packet := [];
      ok := ReadHeader(header);
      if !ok {
        return;
      }
      var length := BodyLength(TypeOf(header[4..6]));
      assert header[4..6] == header[SYNC_SIZE..][..2];
      var body := new Byte[length](_ => 0);
      if length > 0 {
        var got := RecvTcp(body, 0, length);
        if got < 0 {
          return false, [];
        }
      }
      packet := header[SYNC_SIZE..] + body[..];
    }

    /** The endless loop of the thread; it ends with the first read that fails. */
    method ClientTcpThread()
      modifies this
      ensures packets == old(packets) + Receive(old(Abstract()))
    {
      var header := new Byte[HEADER_SIZE](_ => 0);
      while true
        invariant packets + Receive(Abstract()) == old(packets) + Receive(old(Abstract()))
        decreases |input|
      {
        ReceiveStep(Abstract(), packets);
        var ok, packet := ReadOne(header);
        if !ok {
          break;
        }
        packets := packets + [packet];
      }
    }
  }
}
