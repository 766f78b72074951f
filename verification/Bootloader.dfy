/** The firmware upload of the HPSDR protocol-1 bootloader: the host state machine of src/bootloader.c, its simulated
    peer of src/bootldrsim.c, and a lossless in-order link between them, as one transition system. */
module Bootloader {

  type Byte = x: int | 0 <= x < 256

  const BLOCK: nat := 256

  datatype Command =
    | ReadMac
    | ReadIp
    | WriteIp
    | EraseFlash
    | ProgramFlash(block: seq<Byte>)

  datatype Reply = HaveMac | HaveIp | EraseDone | SendMore

  /** The states of the host; TimedOut and Finished are the two ways to leave main. */
  datatype Phase = QueryMac | QueryIp | SetIp | Erase | Program | Wait | Done | TimedOut | Finished

  /** What the user asked for: a file to upload, an address to burn. `beyond` is what happens to lie behind the
      transfer buffer in memory, and `strict` says that the test for the end of the upload is `>`, as it is in the
      source, and not `>=`. */
  datatype Job = Job(upload: bool, burnIp: bool, file: seq<Byte>, beyond: seq<Byte>, strict: bool)

  ghost predicate ValidJob(j: Job) {
    |j.beyond| == BLOCK && (j.upload ==> |j.file| >= 100_000)
  }

  /** rbfxfr: the length of the file, rounded up to whole blocks. */
  function TransferLength(length: nat): (n: nat)
    ensures n % BLOCK == 0 && length <= n < length + BLOCK
  {
    if length % BLOCK != 0 then BLOCK * (length / BLOCK + 1) else length
  }

  /** rbfcontent: the file, padded with 0xFF. */
  function Padded(file: seq<Byte>): (p: seq<Byte>)
    ensures |p| == TransferLength(|file|) && p[..|file|] == file
    ensures forall k :: |file| <= k < |p| ==> p[k] == 0xFF
  {
    file + seq(TransferLength(|file|) - |file|, _ => 0xFF)
  }

  /** What sendRawData can see: the buffer, and one block of whatever follows it. */
  function Memory(j: Job): seq<Byte> {
    Padded(j.file) + j.beyond
  }

  datatype Host = Host(phase: Phase, timeout: int, rbfptr: nat)

  // ----- The host -----

  /** The action associated with the state, and the commands it sends. */
  function Act(j: Job, h: Host): (Host, seq<Command>) {
    match h.phase
    case QueryMac => (h.(phase := Wait, timeout := 50), [ReadMac])
    case QueryIp => (h.(phase := Wait, timeout := 50), [ReadIp])
    case SetIp => (h.(phase := if j.upload then Erase else Done), [WriteIp])
    case Erase => (h.(phase := Wait, timeout := 18000), [EraseFlash])
    case Program =>
      var end := h.rbfptr + BLOCK;
      (Host(Wait, 50, end), if end <= |Memory(j)| then [ProgramFlash(Memory(j)[h.rbfptr..end])] else [])
    case Wait => (h.(timeout := h.timeout - 1, phase := if h.timeout == 1 then TimedOut else Wait), [])
    case Done => (h.(phase := Finished), [])
    case TimedOut => (h, [])
    case Finished => (h, [])
  }

  /** Everything has been sent, says the test at the reply SendMore. */
  predicate AllSent(j: Job, rbfptr: nat) {
    if j.strict then rbfptr > TransferLength(|j.file|) else rbfptr >= TransferLength(|j.file|)
  }

  function Receive(j: Job, h: Host, r: Reply): Host {
    match r
    case HaveMac => h.(phase := QueryIp)
    case HaveIp => h.(phase := if j.burnIp then SetIp else if j.upload then Erase else Done)
    case EraseDone => h.(phase := if j.upload then Program else Done)
    case SendMore => h.(phase := if !j.upload || AllSent(j, h.rbfptr) then Done else Program)
  }

  // ----- Host, device and link -----

  /** `image` is what the device has stored. `polling` says that the host has acted and looks for a packet now.
      `awaited` is the reply to the last command, as long as it has not come, and `erased` remembers that the reply
      to the erase command came. */
  datatype System = System(host: Host, polling: bool, image: seq<Byte>, commands: seq<Command>, replies: seq<Reply>,
                           awaited: seq<Reply>, erased: bool)

  datatype Event =
    | HostActs
    | HostPolls(deliver: bool)  // a reply, or nothing that concerns the host
    | DeviceServes

  function Init(): System {
    System(Host(QueryMac, 0, 0), false, [], [], [], [], false)
  }

  /** What the device answers. */
  function ReplyTo(c: Command): seq<Reply> {
    match c
    case ReadMac => [HaveMac]
    case ReadIp => [HaveIp]
    case WriteIp => []
    case EraseFlash => [EraseDone]
    case ProgramFlash(_) => [SendMore]
  }

  predicate Running(s: System) {
    !s.host.phase.TimedOut? && !s.host.phase.Finished?
  }

  predicate Enabled(s: System, e: Event) {
    match e
    case HostActs => Running(s) && !s.polling
    case HostPolls(deliver) => Running(s) && s.polling && (deliver ==> s.replies != [])
    case DeviceServes => s.commands != []
  }

  function RepliesTo(cs: seq<Command>): seq<Reply> {
    if cs == [] then [] else ReplyTo(cs[0]) + RepliesTo(cs[1..])
  }

  function Step(j: Job, s: System, e: Event): System
    requires Enabled(s, e)
  {
    match e
    case HostActs =>
      var (h, cs) := Act(j, s.host);
      s.(host := h, polling := true, commands := s.commands + cs, awaited := s.awaited + RepliesTo(cs))
    case HostPolls(deliver) =>
      if deliver then
        s.(host := Receive(j, s.host, s.replies[0]), polling := false, replies := s.replies[1..], awaited := [],
           erased := s.erased || s.replies[0].EraseDone?)
      else s.(polling := false)
    case DeviceServes =>
      var c := s.commands[0];
      s.(commands := s.commands[1..], replies := s.replies + ReplyTo(c),
         image := s.image + if c.ProgramFlash? then c.block else [])
  }

  // ----- The invariant -----

  /** The blocks under way. */
  function Written(cs: seq<Command>): seq<Byte> {
    if cs == [] then [] else (if cs[0].ProgramFlash? then cs[0].block else []) + Written(cs[1..])
  }

  /** How much is sent in all. */
  function Total(j: Job): nat {
    TransferLength(|j.file|) + if j.strict then BLOCK else 0
  }

  /** One reply at most is outstanding, and it is the one the host waits for. */
  ghost predicate Link(s: System) {
    && s.replies + RepliesTo(s.commands) == s.awaited
    && (s.host.phase.Wait? ==> |s.awaited| == 1 && s.host.timeout > 0)
    && (!s.host.phase.Wait? && !s.host.phase.TimedOut? ==> s.awaited == [])
  }

  /** The device has stored, or will store, exactly the first rbfptr bytes of the buffer. */
  ghost predicate Stream(j: Job, s: System)
    requires ValidJob(j)
  {
    && s.host.rbfptr <= Total(j) && s.host.rbfptr % BLOCK == 0
    && s.image + Written(s.commands) == Memory(j)[..s.host.rbfptr]
  }

  ghost predicate Awaits(s: System, r: Reply) {
    s.awaited == [r]
  }

  /** The host has not come to the upload yet. */
  ghost predicate Early(s: System) {
    || s.host.phase.QueryMac? || s.host.phase.QueryIp? || s.host.phase.SetIp? || s.host.phase.Erase?
    || Awaits(s, HaveMac) || Awaits(s, HaveIp) || Awaits(s, EraseDone)
  }

  ghost predicate Uploading(s: System) {
    s.host.phase.Program? || Awaits(s, SendMore)
  }

  /** Nothing is programmed before the erase reply, or without a file; the host is done when all is sent. */
  ghost predicate Order(j: Job, s: System) {
    && (s.host.rbfptr > 0 || Uploading(s) ==> s.erased && j.upload)
    && (s.host.phase.Erase? || Awaits(s, EraseDone) ==> j.upload)
    && (Early(s) ==> s.host.rbfptr == 0)
    && (s.host.phase.Program? ==> s.host.rbfptr < Total(j))
    && (s.host.phase.Done? || s.host.phase.Finished? ==> s.host.rbfptr == if j.upload then Total(j) else 0)
  }

  ghost predicate Inv(j: Job, s: System) {
    ValidJob(j) && Link(s) && Stream(j, s) && Order(j, s)
  }

  lemma {:induction false} RepliesAppend(cs: seq<Command>, c: Command)
    ensures RepliesTo(cs + [c]) == RepliesTo(cs) + ReplyTo(c)
  {
    if cs == [] {
      assert [c][1..] == [];
    } else {
      assert (cs + [c])[1..] == cs[1..] + [c];
      RepliesAppend(cs[1..], c);
    }
  }

  lemma {:induction false} WrittenAppend(cs: seq<Command>, c: Command)
    ensures Written(cs + [c]) == Written(cs) + if c.ProgramFlash? then c.block else []
  {
    if cs == [] {
      assert [c][1..] == [];
    } else {
      assert (cs + [c])[1..] == cs[1..] + [c];
      WrittenAppend(cs[1..], c);
    }
  }

  /** What a new command adds to the replies to come and to the data under way. */
  lemma Sending(s: System, c: Command)
    ensures s.replies + RepliesTo(s.commands + [c]) == (s.replies + RepliesTo(s.commands)) + ReplyTo(c)
    ensures s.image + Written(s.commands + [c])
         == (s.image + Written(s.commands)) + if c.ProgramFlash? then c.block else []
    ensures RepliesTo([c]) == ReplyTo(c)
  {
    RepliesAppend(s.commands, c);
    WrittenAppend(s.commands, c);
    RepliesAppend([], c);
  }

  lemma NextBlock(p: nat, n: nat)
    requires p % BLOCK == 0 && n % BLOCK == 0 && p < n
    ensures p + BLOCK <= n && (p + BLOCK) % BLOCK == 0
  {
  }

  lemma WholeBlocks(j: Job)
    requires ValidJob(j)
    ensures Total(j) % BLOCK == 0 && Total(j) <= |Memory(j)|
  {
  }

  /** The command for the next block. */
  lemma ProgramAct(j: Job, s: System)
    requires Inv(j, s) && s.host.phase.Program?
    ensures var p, end := s.host.rbfptr, s.host.rbfptr + BLOCK;
            && end <= Total(j) <= |Memory(j)| && end % BLOCK == 0
            && Act(j, s.host) == (Host(Wait, 50, end), [ProgramFlash(Memory(j)[p..end])])
            && Memory(j)[..p] + Memory(j)[p..end] == Memory(j)[..end]
  {
    WholeBlocks(j);
    NextBlock(s.host.rbfptr, Total(j));
  }

  lemma ProgramInv(j: Job, s: System)
    requires Inv(j, s) && Enabled(s, HostActs) && s.host.phase.Program?
    ensures Inv(j, Step(j, s, HostActs))
  {
    ProgramAct(j, s);
    var c := Act(j, s.host).1[0];
    Sending(s, c);
    var t := Step(j, s, HostActs);
    assert t.awaited == [SendMore];
    assert t.commands == s.commands + [c];
  }

  lemma QueryInv(j: Job, s: System, c: Command)
    requires Inv(j, s) && Enabled(s, HostActs)
    requires c == (match s.host.phase
                   case QueryMac => ReadMac case QueryIp => ReadIp case SetIp => WriteIp case _ => EraseFlash)
    requires s.host.phase.QueryMac? || s.host.phase.QueryIp? || s.host.phase.SetIp? || s.host.phase.Erase?
    ensures Inv(j, Step(j, s, HostActs))
  {
    Sending(s, c);
    var t := Step(j, s, HostActs);
    assert t.awaited == ReplyTo(c);
    assert t.commands == s.commands + [c];
    assert s.image + Written(t.commands) == s.image + Written(s.commands);
  }

  lemma SilentInv(j: Job, s: System)
    requires Inv(j, s) && Enabled(s, HostActs) && (s.host.phase.Wait? || s.host.phase.Done?)
    ensures Inv(j, Step(j, s, HostActs))
  {
    var (h, cs) := Act(j, s.host);
    assert cs == [] && RepliesTo(cs) == [];
    assert s.commands + cs == s.commands && s.awaited + RepliesTo(cs) == s.awaited;
    assert Step(j, s, HostActs) == s.(host := h, polling := true);
  }

  lemma ActInv(j: Job, s: System)
    requires Inv(j, s) && Enabled(s, HostActs)
    ensures Inv(j, Step(j, s, HostActs))
  {
    match s.host.phase
    case Program => ProgramInv(j, s);
    case QueryMac => QueryInv(j, s, ReadMac);
    case QueryIp => QueryInv(j, s, ReadIp);
    case SetIp => QueryInv(j, s, WriteIp);
    case Erase => QueryInv(j, s, EraseFlash);
    case _ => SilentInv(j, s);
  }

  /** The reply that is delivered is the awaited one, and nothing else is under way. */
  lemma Delivered(s: System)
    requires Link(s) && s.replies != [] && s.host.phase != TimedOut
    ensures s.host.phase.Wait? && s.replies == s.awaited == [s.replies[0]] && RepliesTo(s.commands) == []
  {
    assert s.awaited[0] == s.replies[0];
  }

  lemma AllSentIs(j: Job, p: nat)
    requires p % BLOCK == 0 && p <= Total(j)
    ensures AllSent(j, p) <==> p == Total(j)
  {
    var n := TransferLength(|j.file|);
    if p > n {
      NextBlock(n, p);
    }
  }

  lemma DeliverOrder(j: Job, s: System)
    requires Inv(j, s) && Enabled(s, HostPolls(true))
    ensures Order(j, Step(j, s, HostPolls(true)))
  {
    Delivered(s);
    var r := s.replies[0];
    assert Awaits(s, r);
    AllSentIs(j, s.host.rbfptr);
    if r.SendMore? {
      assert s.erased && j.upload;
    } else {
      assert Early(s);
    }
  }

  lemma DeliverInv(j: Job, s: System)
    requires Inv(j, s) && Enabled(s, HostPolls(true))
    ensures Inv(j, Step(j, s, HostPolls(true)))
  {
    Delivered(s);
    DeliverOrder(j, s);
  }

  lemma PollInv(j: Job, s: System, deliver: bool)
    requires Inv(j, s) && Enabled(s, HostPolls(deliver))
    ensures Inv(j, Step(j, s, HostPolls(deliver)))
  {
    if deliver {
      DeliverInv(j, s);
    }
  }

  lemma Serving(s: System)
    requires s.commands != []
    ensures var c, rest := s.commands[0], s.commands[1..];
            && (s.replies + ReplyTo(c)) + RepliesTo(rest) == s.replies + RepliesTo(s.commands)
            && (s.image + if c.ProgramFlash? then c.block else []) + Written(rest) == s.image + Written(s.commands)
  {
  }

  lemma DeviceInv(j: Job, s: System)
    requires Inv(j, s) && Enabled(s, DeviceServes)
    ensures Inv(j, Step(j, s, DeviceServes))
  {
    Serving(s);
  }

  lemma StepInv(j: Job, s: System, e: Event)
    requires Inv(j, s) && Enabled(s, e)
    ensures Inv(j, Step(j, s, e))
  {
    match e
    case HostActs => ActInv(j, s);
    case HostPolls(deliver) => PollInv(j, s, deliver);
    case DeviceServes => DeviceInv(j, s);
  }

  ghost predicate Legal(j: Job, s: System, es: seq<Event>)
    decreases |es|
  {
    es == [] || (Enabled(s, es[0]) && Legal(j, Step(j, s, es[0]), es[1..]))
  }

  ghost function Run(j: Job, s: System, es: seq<Event>): System
    requires Legal(j, s, es)
    decreases |es|
  {
    if es == [] then s else Run(j, Step(j, s, es[0]), es[1..])
  }

  lemma {:induction false} RunInv(j: Job, s: System, es: seq<Event>)
    requires Inv(j, s) && Legal(j, s, es)
    ensures Inv(j, Run(j, s, es))
    decreases |es|
  {
    if es != [] {
      StepInv(j, s, es[0]);
      RunInv(j, Step(j, s, es[0]), es[1..]);
    }
  }

  lemma InitInv(j: Job)
    requires ValidJob(j)
    ensures Inv(j, Init())
  {
    assert Memory(j)[..0] == [];
  }

  // ----- Results -----

  /** In every run: the k blocks programmed so far, stored or under way, are the first k blocks of the buffer; and a
      program command is sent only after the erase reply came, and only if there is a file. */
  lemma UploadInOrder(j: Job, es: seq<Event>)
    requires ValidJob(j) && Legal(j, Init(), es)
    ensures var s := Run(j, Init(), es);
            && s.host.rbfptr <= |Memory(j)| && s.host.rbfptr % BLOCK == 0
            && s.image + Written(s.commands) == Memory(j)[..s.host.rbfptr]
            && (Enabled(s, HostActs) && (exists c :: c in Act(j, s.host).1 && c.ProgramFlash?) ==>
                  && s.erased && j.upload
                  && Act(j, s.host).1 == [ProgramFlash(Memory(j)[s.host.rbfptr..s.host.rbfptr + BLOCK])])
  {
    InitInv(j);
    RunInv(j, Init(), es);
    var s := Run(j, Init(), es);
    if s.host.phase.Program? {
      ProgramAct(j, s);
    }
  }

  lemma {:induction false} NoReplyNoData(cs: seq<Command>)
    requires RepliesTo(cs) == []
    ensures Written(cs) == []
  {
    if cs != [] {
      NoReplyNoData(cs[1..]);
    }
  }

  lemma FinishedHolds(j: Job, s: System)
    requires Inv(j, s) && j.upload && s.host.phase.Finished?
    ensures s.image == Padded(j.file) + if j.strict then j.beyond else []
  {
    assert RepliesTo(s.commands) == [];
    NoReplyNoData(s.commands);
    assert Memory(j)[..Total(j)] == Padded(j.file) + if j.strict then j.beyond else [];
  }

  /** When the host finishes an upload, the device holds what was to be sent in all: with the intended test the padded
      file, with the test of the source one block more. */
  lemma FinishedImage(j: Job, es: seq<Event>)
    requires ValidJob(j) && j.upload && Legal(j, Init(), es) && Run(j, Init(), es).host.phase.Finished?
    ensures Run(j, Init(), es).image == Padded(j.file) + if j.strict then j.beyond else []
  {
    InitInv(j);
    RunInv(j, Init(), es);
    FinishedHolds(j, Run(j, Init(), es));
  }

  /** The device image is exactly the padded file exactly when the test is `>=`. */
  lemma ImageIsFileIffNotStrict(j: Job, es: seq<Event>)
    requires ValidJob(j) && j.upload && Legal(j, Init(), es) && Run(j, Init(), es).host.phase.Finished?
    ensures Run(j, Init(), es).image == Padded(j.file) <==> !j.strict
  {
    FinishedImage(j, es);
    if j.strict {
      assert |Run(j, Init(), es).image| == |Padded(j.file)| + BLOCK;
    }
  }

  // ----- Termination -----

  function Blocks(j: Job, rbfptr: nat): int {
    (Total(j) - rbfptr) / BLOCK
  }

  /** A bound on the rounds that are left from a phase on; each wait is bounded by its time-out. */
  function Rounds(j: Job, phase: Phase, rbfptr: nat): int {
    match phase
    case Finished => 0
    case TimedOut => 0
    case Wait => 0
    case Done => 1
    case Program => 51 * Blocks(j, rbfptr) + 1
    case Erase => 18_001 + 51 * Blocks(j, rbfptr) + 1
    case SetIp => if j.upload then 18_002 + 51 * Blocks(j, rbfptr) + 1 else 2
    case QueryIp => 51 + if j.upload then 18_002 + 51 * Blocks(j, rbfptr) + 1 else 2
    case QueryMac => 102 + if j.upload then 18_002 + 51 * Blocks(j, rbfptr) + 1 else 2
  }

  /** The phase that follows the awaited reply. */
  function After(j: Job, s: System): Phase
    requires s.awaited != []
  {
    Receive(j, s.host, s.awaited[0]).phase
  }

  function Fuel(j: Job, s: System): int {
    if s.host.phase.Wait? && s.awaited != [] then s.host.timeout + Rounds(j, After(j, s), s.host.rbfptr)
    else Rounds(j, s.host.phase, s.host.rbfptr)
  }

  /** The reply that is awaited after an action. */
  lemma AwaitedAfter(j: Job, s: System)
    requires Inv(j, s) && Enabled(s, HostActs)
    ensures var t := Step(j, s, HostActs);
            match s.host.phase
            case QueryMac => t.awaited == [HaveMac]
            case QueryIp => t.awaited == [HaveIp]
            case Erase => t.awaited == [EraseDone]
            case Program => t.awaited == [SendMore]
            case _ => t.awaited == s.awaited
  {
    if s.host.phase.Program? {
      ProgramAct(j, s);
    }
    var cs := Act(j, s.host).1;
    if cs != [] {
      assert cs == [cs[0]] && RepliesTo(cs) == ReplyTo(cs[0]) by { RepliesAppend([], cs[0]); }
    }
  }

  lemma ProgramBurns(j: Job, s: System)
    requires Inv(j, s) && Enabled(s, HostActs) && s.host.phase.Program?
    ensures 0 <= Fuel(j, Step(j, s, HostActs)) < Fuel(j, s)
  {
    ProgramAct(j, s);
    AwaitedAfter(j, s);
    assert Blocks(j, s.host.rbfptr + BLOCK) == Blocks(j, s.host.rbfptr) - 1;
  }

  lemma BlocksLeft(j: Job, s: System)
    requires Inv(j, s)
    ensures Blocks(j, s.host.rbfptr) >= 0
  {
  }

  lemma QueryBurns(j: Job, s: System)
    requires Inv(j, s) && Enabled(s, HostActs)
    requires s.host.phase.QueryMac? || s.host.phase.QueryIp? || s.host.phase.Erase?
    ensures 0 <= Fuel(j, Step(j, s, HostActs)) < Fuel(j, s)
  {
    BlocksLeft(j, s);
    AwaitedAfter(j, s);
  }

  lemma WaitBurns(j: Job, s: System)
    requires Inv(j, s) && Enabled(s, HostActs) && s.host.phase.Wait?
    ensures 0 <= Fuel(j, Step(j, s, HostActs)) < Fuel(j, s)
  {
    BlocksLeft(j, s);
    var t := Step(j, s, HostActs);
    assert t.awaited == s.awaited;
    assert After(j, t) == After(j, s) && !After(j, s).Wait?;
  }

  lemma LastBurns(j: Job, s: System)
    requires Inv(j, s) && Enabled(s, HostActs) && (s.host.phase.SetIp? || s.host.phase.Done?)
    ensures 0 <= Fuel(j, Step(j, s, HostActs)) < Fuel(j, s)
  {
    BlocksLeft(j, s);
  }

  lemma ActBurns(j: Job, s: System)
    requires Inv(j, s) && Enabled(s, HostActs)
    ensures 0 <= Fuel(j, Step(j, s, HostActs)) < Fuel(j, s)
  {
    match s.host.phase
    case Program => ProgramBurns(j, s);
    case QueryMac => QueryBurns(j, s);
    case QueryIp => QueryBurns(j, s);
    case Erase => QueryBurns(j, s);
    case Wait => WaitBurns(j, s);
    case _ => LastBurns(j, s);
  }

  lemma PollBurns(j: Job, s: System, deliver: bool)
    requires Inv(j, s) && Enabled(s, HostPolls(deliver))
    ensures Fuel(j, Step(j, s, HostPolls(deliver))) <= Fuel(j, s)
  {
    if deliver {
      assert s.awaited[0] == s.replies[0];
    }
  }

  function Actions(es: seq<Event>): nat {
    if es == [] then 0 else (if es[0].HostActs? then 1 else 0) + Actions(es[1..])
  }

  lemma FuelNotNegative(j: Job, s: System)
    requires Inv(j, s)
    ensures Fuel(j, s) >= 0
  {
    BlocksLeft(j, s);
  }

  lemma StepBurns(j: Job, s: System, e: Event)
    requires Inv(j, s) && Enabled(s, e)
    ensures Fuel(j, Step(j, s, e)) + (if e.HostActs? then 1 else 0) <= Fuel(j, s)
  {
    match e
    case HostActs => ActBurns(j, s);
    case HostPolls(deliver) => PollBurns(j, s, deliver);
    case DeviceServes =>
  }

  lemma {:induction false} RunBurns(j: Job, s: System, es: seq<Event>)
    requires Inv(j, s) && Legal(j, s, es)
    ensures Actions(es) <= Fuel(j, s)
    decreases |es|
  {
    FuelNotNegative(j, s);
    if es != [] {
      StepInv(j, s, es[0]);
      StepBurns(j, s, es[0]);
      RunBurns(j, Step(j, s, es[0]), es[1..]);
    }
  }

  /** The host always comes to an end: no run has more rounds of its loop than the time-outs and blocks allow. */
  lemma HostTerminates(j: Job, es: seq<Event>)
    requires ValidJob(j) && Legal(j, Init(), es)
    ensures Actions(es) <= if j.upload then 18_105 + 51 * (Total(j) / BLOCK) else 104
  {
    InitInv(j);
    RunBurns(j, Init(), es);
  }

  // ----- What the host says -----

  /** What is to be stored: the padded file, and one block more with the test of the source. */
  function ToStore(j: Job): seq<Byte> {
    Padded(j.file) + if j.strict then j.beyond else []
  }

  /** A program command for each block. */
  function Programs(data: seq<Byte>): seq<Command> {
    if |data| < 256 then [] else [ProgramFlash(data[..256])] + Programs(data[256..])
  }

  function Upload(j: Job): seq<Command> {
    if j.upload then [EraseFlash] + Programs(ToStore(j)) else []
  }

  function Burn(j: Job): seq<Command> {
    if j.burnIp then [WriteIp] else []
  }

  /** All that the host says: it asks who is there, writes the address if that is wanted, and then, if there is a file,
      has the memory erased and sends the blocks. */
  function Script(j: Job): seq<Command> {
    [ReadMac, ReadIp] + (Burn(j) + Upload(j))
  }

  /** The commands sent in a run. */
  function Said(j: Job, s: System, es: seq<Event>): seq<Command>
    requires Legal(j, s, es)
    decreases |es|
  {
    if es == [] then []
    else (if es[0].HostActs? then Act(j, s.host).1 else []) + Said(j, Step(j, s, es[0]), es[1..])
  }

  function BlocksFrom(j: Job, p: nat): seq<Command> {
    if p <= |ToStore(j)| then Programs(ToStore(j)[p..]) else []
  }

  /** What is still to be said. */
  function Unsaid(j: Job, s: System): seq<Command> {
    if s.awaited != [] then
      match s.awaited[0]
      case HaveMac => [ReadIp] + (Burn(j) + Upload(j))
      case HaveIp => Burn(j) + Upload(j)
      case EraseDone => BlocksFrom(j, s.host.rbfptr)
      case SendMore => BlocksFrom(j, s.host.rbfptr)
    else
      match s.host.phase
      case QueryMac => Script(j)
      case QueryIp => [ReadIp] + (Burn(j) + Upload(j))
      case SetIp => [WriteIp] + Upload(j)
      case Erase => Upload(j)
      case Program => BlocksFrom(j, s.host.rbfptr)
      case _ => []
  }

  lemma StoreIsMemory(j: Job)
    requires ValidJob(j)
    ensures ToStore(j) == Memory(j)[..Total(j)] && |ToStore(j)| == Total(j)
  {
  }

  /** One block is said, the others are not yet. */
  lemma SayBlock(j: Job, s: System)
    requires Inv(j, s) && s.host.phase.Program?
    ensures BlocksFrom(j, s.host.rbfptr) == Act(j, s.host).1 + BlocksFrom(j, s.host.rbfptr + BLOCK)
  {
    ProgramAct(j, s);
    StoreIsMemory(j);
    var p := s.host.rbfptr;
    var rest := ToStore(j)[p..];
    assert rest[..256] == Memory(j)[p..p + BLOCK];
    assert rest[256..] == ToStore(j)[p + BLOCK..];
  }

  lemma SayErase(j: Job, s: System)
    requires Inv(j, s) && s.host.phase.Erase?
    ensures Upload(j) == [EraseFlash] + BlocksFrom(j, s.host.rbfptr)
  {
    assert ToStore(j)[0..] == ToStore(j);
  }

  lemma QuestionSays(j: Job, s: System)
    requires Inv(j, s) && Enabled(s, HostActs) && (s.host.phase.QueryMac? || s.host.phase.QueryIp?)
    ensures Unsaid(j, s) == Act(j, s.host).1 + Unsaid(j, Step(j, s, HostActs))
  {
    AwaitedAfter(j, s);
    Assoc([ReadMac], [ReadIp], Burn(j) + Upload(j));
    assert [ReadMac] + [ReadIp] == [ReadMac, ReadIp];
  }

  lemma OrderSays(j: Job, s: System)
    requires Inv(j, s) && Enabled(s, HostActs) && (s.host.phase.SetIp? || s.host.phase.Erase?)
    ensures Unsaid(j, s) == Act(j, s.host).1 + Unsaid(j, Step(j, s, HostActs))
  {
    AwaitedAfter(j, s);
    if s.host.phase.Erase? {
      SayErase(j, s);
    }
  }

  lemma BlockSays(j: Job, s: System)
    requires Inv(j, s) && Enabled(s, HostActs) && s.host.phase.Program?
    ensures Unsaid(j, s) == Act(j, s.host).1 + Unsaid(j, Step(j, s, HostActs))
  {
    AwaitedAfter(j, s);
    SayBlock(j, s);
  }

  lemma SilenceSays(j: Job, s: System)
    requires Inv(j, s) && Enabled(s, HostActs) && (s.host.phase.Wait? || s.host.phase.Done?)
    ensures Unsaid(j, s) == Act(j, s.host).1 + Unsaid(j, Step(j, s, HostActs))
  {
    AwaitedAfter(j, s);
  }

  /** An action says the next thing to be said. */
  lemma ActSays(j: Job, s: System)
    requires Inv(j, s) && Enabled(s, HostActs)
    ensures Unsaid(j, s) == Act(j, s.host).1 + Unsaid(j, Step(j, s, HostActs))
  {
    match s.host.phase
    case QueryMac => QuestionSays(j, s);
    case QueryIp => QuestionSays(j, s);
    case SetIp => OrderSays(j, s);
    case Erase => OrderSays(j, s);
    case Program => BlockSays(j, s);
    case _ => SilenceSays(j, s);
  }

  lemma NothingLeft(j: Job, s: System)
    requires Inv(j, s) && j.upload && s.host.rbfptr == Total(j)
    ensures BlocksFrom(j, s.host.rbfptr) == []
  {
    StoreIsMemory(j);
  }

  /** A reply decides what is said next. */
  lemma PollSays(j: Job, s: System, deliver: bool)
    requires Inv(j, s) && Enabled(s, HostPolls(deliver))
    ensures Unsaid(j, Step(j, s, HostPolls(deliver))) == Unsaid(j, s)
  {
    if deliver {
      assert s.awaited[0] == s.replies[0];
      assert s.awaited == [s.replies[0]];
      PollInv(j, s, deliver);
      var t := Step(j, s, HostPolls(deliver));
      if t.host.phase.Done? && j.upload {
        NothingLeft(j, t);
      }
    }
  }

  lemma StepSays(j: Job, s: System, e: Event)
    requires Inv(j, s) && Enabled(s, e)
    ensures Unsaid(j, s) == (if e.HostActs? then Act(j, s.host).1 else []) + Unsaid(j, Step(j, s, e))
  {
    match e
    case HostActs => ActSays(j, s);
    case HostPolls(deliver) => PollSays(j, s, deliver);
    case DeviceServes =>
  }

  lemma Assoc(a: seq<Command>, b: seq<Command>, c: seq<Command>)
    ensures (a + b) + c == a + (b + c)
  {
  }

  lemma {:induction false} RunSays(j: Job, s: System, es: seq<Event>)
    requires Inv(j, s) && Legal(j, s, es)
    ensures Unsaid(j, s) == Said(j, s, es) + Unsaid(j, Run(j, s, es))
    decreases |es|
  {
    if es != [] {
      var t := Step(j, s, es[0]);
      StepInv(j, s, es[0]);
      StepSays(j, s, es[0]);
      RunSays(j, t, es[1..]);
      Assoc(if es[0].HostActs? then Act(j, s.host).1 else [], Said(j, t, es[1..]), Unsaid(j, Run(j, t, es[1..])));
    }
  }

  /** In every run the commands sent are a beginning of the script, and if the host says that all is done, they are the
      whole script: the address is written exactly once if that was asked for and never otherwise, the memory is erased
      exactly if there is a file, and after the address was written, and then come the blocks. */
  lemma SaysScript(j: Job, es: seq<Event>)
    requires ValidJob(j) && Legal(j, Init(), es)
    ensures Said(j, Init(), es) <= Script(j)
    ensures Run(j, Init(), es).host.phase.Finished? ==> Said(j, Init(), es) == Script(j)
  {
    InitInv(j);
    RunInv(j, Init(), es);
    RunSays(j, Init(), es);
  }

  // ----- How long the host waits -----

  ghost predicate NothingComes(es: seq<Event>) {
    forall i :: 0 <= i < |es| ==> es[i] != HostPolls(true)
  }

  lemma {:induction false} OverIsOver(j: Job, s: System, es: seq<Event>)
    requires s.host.phase.TimedOut? && Legal(j, s, es)
    ensures Run(j, s, es).host.phase.TimedOut? && Actions(es) == 0
    decreases |es|
  {
    if es != [] {
      OverIsOver(j, Step(j, s, es[0]), es[1..]);
    }
  }

  lemma {:induction false} WaitRunsDown(j: Job, s: System, es: seq<Event>)
    requires s.host.phase.Wait? && s.host.timeout > 0 && Legal(j, s, es) && NothingComes(es)
    ensures Run(j, s, es).host.phase == if Actions(es) < s.host.timeout then Wait else TimedOut
    decreases |es|
  {
    if es != [] {
      var t := Step(j, s, es[0]);
      assert forall i :: 0 <= i < |es| - 1 ==> es[1..][i] == es[i + 1];
      assert es[0] != HostPolls(true);
      if t.host.phase.Wait? {
        WaitRunsDown(j, t, es[1..]);
      } else {
        OverIsOver(j, t, es[1..]);
      }
    }
  }

  /** If nothing comes the host waits 18000 rounds of its loop for the erase reply and 50 for any other, and gives up in
      the last of them. */
  lemma GivesUpAfter(j: Job, s: System, es: seq<Event>)
    requires Inv(j, s) && Legal(j, s, es) && NothingComes(es) && es != [] && es[0].HostActs?
    requires s.host.phase.QueryMac? || s.host.phase.QueryIp? || s.host.phase.Erase? || s.host.phase.Program?
    ensures Run(j, s, es).host.phase
         == if Actions(es) - 1 < (if s.host.phase.Erase? then 18_000 else 50) then Wait else TimedOut
  {
    assert forall i :: 0 <= i < |es| - 1 ==> es[1..][i] == es[i + 1];
    WaitRunsDown(j, Step(j, s, HostActs), es[1..]);
  }

  // ----- The end is reached -----

  /** Some run from here ends with the host saying that all is done. */
  ghost predicate CanFinish(j: Job, s: System) {
    exists es :: Finishes(j, s, es)
  }

  ghost predicate Finishes(j: Job, s: System, es: seq<Event>) {
    Legal(j, s, es) && Run(j, s, es).host.phase.Finished?
  }

  lemma FinishLater(j: Job, s: System, e: Event)
    requires Enabled(s, e) && CanFinish(j, Step(j, s, e))
    ensures CanFinish(j, s)
  {
    var es :| Finishes(j, Step(j, s, e), es);
    var all := [e] + es;
    assert all[1..] == es;
    assert Finishes(j, s, all);
  }

  /** The time-out has run down: whatever comes now comes too late. */
  predicate TooLate(s: System) {
    s.host.phase.TimedOut? || (s.host.phase.Wait? && !s.polling && s.host.timeout == 1)
  }

  /** The event by which the upload gets on: the device serves, and what is there is delivered. */
  function Onward(s: System): Event {
    if s.commands != [] then DeviceServes
    else if s.polling then HostPolls(s.replies != [])
    else HostActs
  }

  lemma OnwardKeeps(j: Job, s: System)
    requires Inv(j, s) && Running(s) && !TooLate(s)
    ensures Enabled(s, Onward(s)) && Inv(j, Step(j, s, Onward(s))) && !TooLate(Step(j, s, Onward(s)))
  {
    StepInv(j, s, Onward(s));
    if Onward(s).HostPolls? {
      assert RepliesTo(s.commands) == [];
      assert s.replies == s.awaited;
    }
  }

  lemma {:induction false} InTimeFinishes(j: Job, s: System)
    requires Inv(j, s) && !TooLate(s)
    ensures CanFinish(j, s)
    decreases Fuel(j, s), if s.polling then 1 else 0, |s.commands|
  {
    if s.host.phase.Finished? {
      assert Finishes(j, s, []);
    } else {
      var e := Onward(s);
      OnwardKeeps(j, s);
      StepBurns(j, s, e);
      FuelNotNegative(j, s);
      InTimeFinishes(j, Step(j, s, e));
      FinishLater(j, s, e);
    }
  }

  lemma StaysTooLate(j: Job, s: System, e: Event)
    requires TooLate(s) && Enabled(s, e)
    ensures TooLate(Step(j, s, e))
  {
  }

  lemma {:induction false} TooLateNeverFinishes(j: Job, s: System, es: seq<Event>)
    requires TooLate(s) && Legal(j, s, es)
    ensures TooLate(Run(j, s, es))
    decreases |es|
  {
    if es != [] {
      StaysTooLate(j, s, es[0]);
      TooLateNeverFinishes(j, Step(j, s, es[0]), es[1..]);
    }
  }

  /** From every state that a run can reach the host can still finish, exactly when its time-out has not run down. */
  lemma CanFinishIff(j: Job, es: seq<Event>)
    requires ValidJob(j) && Legal(j, Init(), es)
    ensures CanFinish(j, Run(j, Init(), es)) <==> !TooLate(Run(j, Init(), es))
  {
    InitInv(j);
    RunInv(j, Init(), es);
    var s := Run(j, Init(), es);
    if TooLate(s) {
      if CanFinish(j, s) {
        var more :| Finishes(j, s, more);
        TooLateNeverFinishes(j, s, more);
      }
    } else {
      InTimeFinishes(j, s);
    }
  }

  /** For every job some run uploads the file, with the test of the source as with the intended one. */
  lemma UploadCompletes(j: Job) returns (es: seq<Event>)
    requires ValidJob(j) && j.upload
    ensures Legal(j, Init(), es) && Run(j, Init(), es).host.phase.Finished?
    ensures Run(j, Init(), es).image == Padded(j.file) + if j.strict then j.beyond else []
  {
    InitInv(j);
    InTimeFinishes(j, Init());
    es :| Finishes(j, Init(), es);
    FinishedImage(j, es);
  }

  /** Every reply is delivered before its time-out: no wait runs down. */
  ghost predicate Prompt(j: Job, s: System, es: seq<Event>)
    requires Legal(j, s, es)
    decreases |es|
  {
    es == [] ||
    ((es[0].HostActs? && s.host.phase.Wait? ==> s.host.timeout > 1) && Prompt(j, Step(j, s, es[0]), es[1..]))
  }

  lemma OneMoreInTime(j: Job, s: System, e: Event)
    requires Inv(j, s) && !s.host.phase.TimedOut? && Enabled(s, e)
    requires e.HostActs? && s.host.phase.Wait? ==> s.host.timeout > 1
    ensures !Step(j, s, e).host.phase.TimedOut?
  {
  }

  lemma {:induction false} PromptNeverTimesOut(j: Job, s: System, es: seq<Event>)
    requires Inv(j, s) && !s.host.phase.TimedOut? && Legal(j, s, es) && Prompt(j, s, es)
    ensures !Run(j, s, es).host.phase.TimedOut?
    decreases |es|
  {
    if es != [] {
      StepInv(j, s, es[0]);
      OneMoreInTime(j, s, es[0]);
      PromptNeverTimesOut(j, Step(j, s, es[0]), es[1..]);
    }
  }

  /** If every reply is delivered before its time-out, a run that is over has finished the upload. */
  lemma PromptRunFinishes(j: Job, es: seq<Event>)
    requires ValidJob(j) && Legal(j, Init(), es) && Prompt(j, Init(), es) && !Running(Run(j, Init(), es))
    ensures Run(j, Init(), es).host.phase.Finished?
    ensures j.upload ==> Run(j, Init(), es).image == Padded(j.file) + if j.strict then j.beyond else []
  {
    InitInv(j);
    PromptNeverTimesOut(j, Init(), es);
    if j.upload {
      FinishedImage(j, es);
    }
  }

  // ----- Frames -----

  const RADIO_MAC: seq<Byte> := [0x11, 0x22, 0x33, 0x44, 0x55, 0x66]

  function Code(c: Command): Byte {
    match c
    case ProgramFlash(_) => 0x01
    case EraseFlash => 0x02
    case ReadMac => 0x03
    case ReadIp => 0x04
    case WriteIp => 0x05
  }

  function Header(hw: seq<Byte>, code: Byte): seq<Byte> {
    RADIO_MAC + hw + [0xEF, 0xFE, 0x03, code]
  }

  /** The Ethernet frame of a command: 62 bytes, or 276 with a block of data from byte 20 on. `data` are the bytes
      that go with the command, such as the address to burn. */
  function Frame(hw: seq<Byte>, c: Command, data: seq<Byte>): seq<Byte>
    requires |data| <= 46
  {
    match c
    case ProgramFlash(block) => Header(hw, Code(c)) + [0, 0, 0, 0] + block
    case _ => Header(hw, Code(c)) + data + seq(46 - |data|, _ => 0)
  }

  /** What the device makes of a frame: nothing, if it is not for the boot loader. */
  function Understood(frame: seq<Byte>): seq<Command> {
    if |frame| > 22 && frame[..6] == RADIO_MAC && frame[12] == 0xEF && frame[13] == 0xFE && frame[14] == 3 then
      match frame[15]
      case 0x01 => if |frame| >= 276 then [ProgramFlash(frame[20..276])] else []
      case 0x02 => [EraseFlash]
      case 0x03 => [ReadMac]
      case 0x04 => [ReadIp]
      case 0x05 => [WriteIp]
      case _ => []
    else []
  }

  /** The frame, byte by byte: the addresses, the mark of the boot loader, the command and what goes with it. */
  lemma FrameBytes(hw: seq<Byte>, c: Command, data: seq<Byte>)
    requires |hw| == 6 && |data| <= 46 && (c.ProgramFlash? ==> |c.block| == BLOCK)
    ensures var f := Frame(hw, c, data);
            && |f| == (if c.ProgramFlash? then 276 else 62)
            && f[..6] == [0x11, 0x22, 0x33, 0x44, 0x55, 0x66] && f[6..12] == hw && f[12..15] == [0xEF, 0xFE, 0x03]
            && f[15] == (match c
                         case ProgramFlash(_) => 1 case EraseFlash => 2 case ReadMac => 3 case ReadIp => 4
                         case WriteIp => 5)
            && (if c.ProgramFlash? then f[16..20] == [0, 0, 0, 0] && f[20..] == c.block
                else f[16..16 + |data|] == data && forall k :: 16 + |data| <= k < 62 ==> f[k] == 0)
  {
    var f, head := Frame(hw, c, data), Header(hw, Code(c));
    assert f[..16] == head;
    assert f[..6] == head[..6] && f[6..12] == head[6..12] && f[12..15] == head[12..15];
  }

  /** The device gets the command that was sent, with the very block that was sent. */
  lemma FrameIsUnderstood(hw: seq<Byte>, c: Command, data: seq<Byte>)
    requires |hw| == 6 && |data| <= 46 && (c.ProgramFlash? ==> |c.block| == BLOCK)
    ensures Understood(Frame(hw, c, data)) == [c]
  {
    var frame, head := Frame(hw, c, data), Header(hw, Code(c));
    assert frame[..16] == head;
    assert head[..6] == RADIO_MAC;
    assert frame[..6] == frame[..16][..6];
    if c.ProgramFlash? {
      assert frame[20..276] == c.block;
    }
  }

  // ----- The loops and variables of the host -----

  /** Pad with 0xFF up to the next multiple of 256, in place. */
  method PadContent(content: array<Byte>, rbflen: nat)
    requires rbflen <= content.Length == TransferLength(rbflen)
    modifies content
    ensures content[..] == Padded(old(content[..rbflen]))
  {
    for i := rbflen to content.Length
      invariant content[..rbflen] == old(content[..rbflen])
      invariant forall k :: rbflen <= k < i ==> content[k] == 0xFF
    {
      content[i] := 0xFF;
    }
  }

  /** sendRawData: one block, from position ptr of the data. */
  method SendRawData(hw: seq<Byte>, data: seq<Byte>, ptr: nat) returns (frame: seq<Byte>)
    requires |hw| == 6 && ptr + BLOCK <= |data|
    ensures frame == Frame(hw, ProgramFlash(data[ptr..ptr + BLOCK]), [])
  {
    var block := new Byte[BLOCK](_ => 0);
    for i := 0 to BLOCK
      invariant block[..i] == data[ptr..ptr + i]
    {
      block[i] := data[ptr + i];
    }
    assert block[..] == data[ptr..ptr + BLOCK];
    frame := Header(hw, 0x01) + [0, 0, 0, 0] + block[..];
  }

  /** The device serves up to k commands. */
  function Serve(j: Job, s: System, k: nat): System
    decreases k
  {
    if k == 0 || s.commands == [] then s else Serve(j, Step(j, s, DeviceServes), k - 1)
  }

  lemma {:induction false} ServeKeepsHost(j: Job, s: System, k: nat)
    ensures var t := Serve(j, s, k);
            && t.host == s.host && t.polling == s.polling && t.awaited == s.awaited
            && (k >= |s.commands| ==> t.commands == [])
    decreases k
  {
    if k > 0 && s.commands != [] {
      ServeKeepsHost(j, Step(j, s, DeviceServes), k - 1);
    }
  }

  lemma {:induction false} ServeKeepsInv(j: Job, s: System, k: nat)
    requires Inv(j, s)
    ensures Inv(j, Serve(j, s, k))
    decreases k
  {
    if k > 0 && s.commands != [] {
      DeviceInv(j, s);
      ServeKeepsInv(j, Step(j, s, DeviceServes), k - 1);
    }
  }

  lemma ServeInv(j: Job, s: System, k: nat)
    requires Inv(j, s)
    ensures var t := Serve(j, s, k);
            && Inv(j, t) && t.host == s.host && t.polling == s.polling && t.awaited == s.awaited
            && (k >= |s.commands| ==> t.commands == [])
  {
    ServeKeepsInv(j, s, k);
    ServeKeepsHost(j, s, k);
  }

  /** Nothing is under way, and nothing was missed. */
  ghost predicate Quiet(s: System) {
    s.commands == [] && s.replies == [] && s.awaited == [] && !s.host.phase.TimedOut?
  }

  lemma QuietActs(j: Job, s: System)
    requires Inv(j, s) && Quiet(s) && Enabled(s, HostActs)
    ensures var t := Step(j, s, HostActs);
            |t.commands| <= 1 && |t.awaited| <= 1 && !t.host.phase.TimedOut?
  {
    AwaitedAfter(j, s);
  }

  /** One round of the host's loop: act, then look for a packet. In between the device serves up to `served` commands;
      the host finds a reply if there is one and `arrives`. */
  function Round(j: Job, s: System, served: nat, arrives: bool): System
    requires Enabled(s, HostActs)
  {
    var t := Serve(j, Step(j, s, HostActs), served);
    if Running(t) && t.polling then Step(j, t, HostPolls(arrives && t.replies != [])) else t
  }

  lemma RoundInv(j: Job, s: System, served: nat, arrives: bool)
    requires Inv(j, s) && Enabled(s, HostActs)
    ensures var t := Round(j, s, served, arrives);
            Inv(j, t) && (Running(t) ==> !t.polling) && 0 <= Fuel(j, t) < Fuel(j, s)
  {
    ActInv(j, s);
    ActBurns(j, s);
    ServeInv(j, Step(j, s, HostActs), served);
    var t := Serve(j, Step(j, s, HostActs), served);
    if Running(t) {
      PollInv(j, t, arrives && t.replies != []);
      PollBurns(j, t, arrives && t.replies != []);
    }
    FuelNotNegative(j, Round(j, s, served, arrives));
  }

  /** In a round the host says one thing at most, and then hears what to say next. */
  lemma RoundSays(j: Job, s: System, served: nat, arrives: bool)
    requires Inv(j, s) && Enabled(s, HostActs)
    ensures Unsaid(j, s) == Act(j, s.host).1 + Unsaid(j, Round(j, s, served, arrives))
  {
    ActInv(j, s);
    ActSays(j, s);
    var u := Step(j, s, HostActs);
    ServeInv(j, u, served);
    var t := Serve(j, u, served);
    assert Unsaid(j, t) == Unsaid(j, u);
    if Running(t) {
      PollSays(j, t, arrives && t.replies != []);
    }
  }

  lemma PollQuiet(j: Job, t: System)
    requires Inv(j, t) && t.commands == [] && |t.awaited| <= 1 && Running(t) && t.polling
    ensures Quiet(Step(j, t, HostPolls(t.replies != [])))
  {
    assert RepliesTo(t.commands) == [];
    assert t.replies == t.awaited;
  }

  /** If the device keeps up and its replies arrive, nothing is left over after a round. */
  lemma RoundQuiet(j: Job, s: System, served: nat)
    requires Inv(j, s) && Quiet(s) && Enabled(s, HostActs) && served > 0
    ensures Quiet(Round(j, s, served, true))
  {
    ActInv(j, s);
    QuietActs(j, s);
    ServeInv(j, Step(j, s, HostActs), served);
    var t := Serve(j, Step(j, s, HostActs), served);
    if Running(t) {
      PollQuiet(j, t);
    }
  }

  // ----- Replies that are late -----

  /** How many of the commands have no reply. */
  function Silent(cs: seq<Command>): nat {
    if cs == [] then 0 else (if cs[0].WriteIp? then 1 else 0) + Silent(cs[1..])
  }

  lemma {:induction false} SilentAppend(cs: seq<Command>, c: Command)
    ensures Silent(cs + [c]) == Silent(cs) + if c.WriteIp? then 1 else 0
  {
    if cs == [] {
      assert [c][1..] == [];
    } else {
      assert (cs + [c])[1..] == cs[1..] + [c];
      SilentAppend(cs[1..], c);
    }
  }

  lemma {:induction false} CommandsCount(cs: seq<Command>)
    ensures |cs| == Silent(cs) + |RepliesTo(cs)|
  {
    if cs != [] {
      CommandsCount(cs[1..]);
    }
  }

  /** The address has not been sent yet. */
  predicate Unwritten(s: System) {
    || s.host.phase.QueryMac? || s.host.phase.QueryIp? || s.host.phase.SetIp?
    || s.awaited == [HaveMac] || s.awaited == [HaveIp]
  }

  /** It is sent once. */
  predicate Few(s: System) {
    Silent(s.commands) <= if Unwritten(s) then 0 else 1
  }

  /** So never more than two commands are in the queue. */
  lemma QueueIsShort(j: Job, s: System)
    requires Inv(j, s) && Few(s) && !s.host.phase.TimedOut?
    ensures |s.commands| <= 2
  {
    CommandsCount(s.commands);
    assert |s.replies| + |RepliesTo(s.commands)| == |s.awaited| <= 1;
  }

  lemma SentSilent(j: Job, s: System)
    requires Inv(j, s) && Enabled(s, HostActs)
    ensures Silent(Step(j, s, HostActs).commands) == Silent(s.commands) + if s.host.phase.SetIp? then 1 else 0
  {
    var cs := Act(j, s.host).1;
    if cs == [] {
      assert s.commands + cs == s.commands;
    } else {
      SilentAppend(s.commands, cs[0]);
      assert cs == [cs[0]];
    }
  }

  lemma ActFew(j: Job, s: System)
    requires Inv(j, s) && Few(s) && Enabled(s, HostActs)
    ensures Few(Step(j, s, HostActs))
  {
    SentSilent(j, s);
    AwaitedAfter(j, s);
    var t := Step(j, s, HostActs);
    assert Unwritten(t) ==> Unwritten(s) && !s.host.phase.SetIp?;
  }

  lemma PollFew(j: Job, s: System, deliver: bool)
    requires Inv(j, s) && Few(s) && Enabled(s, HostPolls(deliver))
    ensures Few(Step(j, s, HostPolls(deliver)))
  {
    if deliver {
      assert s.awaited[0] == s.replies[0];
      assert s.awaited == [s.replies[0]];
    }
  }

  lemma {:induction false} ServeFew(j: Job, s: System, k: nat)
    requires Few(s)
    ensures Few(Serve(j, s, k))
    decreases k
  {
    if k > 0 && s.commands != [] {
      ServeFew(j, Step(j, s, DeviceServes), k - 1);
    }
  }

  lemma RoundFew(j: Job, s: System, served: nat, arrives: bool)
    requires Inv(j, s) && Few(s) && Enabled(s, HostActs)
    ensures Few(Round(j, s, served, arrives))
  {
    ActInv(j, s);
    ActFew(j, s);
    ServeInv(j, Step(j, s, HostActs), served);
    ServeFew(j, Step(j, s, HostActs), served);
    var t := Serve(j, Step(j, s, HostActs), served);
    if Running(t) {
      PollFew(j, t, arrives && t.replies != []);
    }
  }

  /** A round in which the device empties its queue and the reply comes through. */
  predicate Good(served: nat, arrives: bool) {
    served >= 2 && arrives
  }

  /** What a wait has left before a round. */
  predicate InTime(s: System, left: int) {
    !s.host.phase.TimedOut? && (s.host.phase.Wait? ==> s.host.timeout > left)
  }

  lemma ActInTime(j: Job, s: System)
    requires Inv(j, s) && Enabled(s, HostActs) && InTime(s, 1)
    ensures var t := Step(j, s, HostActs);
            && !t.host.phase.TimedOut?
            && (t.host.phase.Wait? ==> if s.host.phase.Wait? then t.host.timeout == s.host.timeout - 1
                                       else t.host.timeout >= 50)
  {
  }

  lemma PollInTime(j: Job, t: System, good: bool, arrives: bool)
    requires Inv(j, t) && Running(t) && t.polling && (good ==> arrives && t.commands == [])
    ensures var u := Step(j, t, HostPolls(arrives && t.replies != []));
            && !u.host.phase.TimedOut?
            && (u.host.phase.Wait? ==> !good && t.host.phase.Wait? && u.host.timeout == t.host.timeout)
  {
    if arrives && t.replies != [] {
      Delivered(t);
    } else if good {
      NothingUnderWay(t);
    }
  }

  lemma NothingUnderWay(t: System)
    requires Link(t) && t.replies == [] && t.commands == []
    ensures !t.host.phase.Wait?
  {
    assert RepliesTo(t.commands) == [];
  }

  /** A good round ends a wait; any other one takes one from its time-out, or begins it. */
  lemma RoundInTime(j: Job, s: System, served: nat, arrives: bool)
    requires Inv(j, s) && Few(s) && Enabled(s, HostActs) && InTime(s, 1)
    ensures var t := Round(j, s, served, arrives);
            && !t.host.phase.TimedOut?
            && (t.host.phase.Wait? ==>
                  && !Good(served, arrives)
                  && if s.host.phase.Wait? then t.host.timeout == s.host.timeout - 1 else t.host.timeout >= 50)
  {
    var u := Step(j, s, HostActs);
    ActInv(j, s);
    ActFew(j, s);
    ActInTime(j, s);
    QueueIsShort(j, u);
    ServeInv(j, u, served);
    var t := Serve(j, u, served);
    if Running(t) {
      PollInTime(j, t, Good(served, arrives), arrives);
    }
  }

  /** There is a good round among those from `from` up to, and not including, `upto`. */
  ghost predicate Soon(served: nat -> nat, arrives: nat -> bool, from: nat, upto: int) {
    exists m: nat :: from <= m < upto && Good(served(m), arrives(m))
  }

  ghost predicate SoonEnough(served: nat -> nat, arrives: nat -> bool, from: nat) {
    Soon(served, arrives, from, from + 50)
  }

  /** No 50 rounds without a good one. */
  ghost predicate Responsive(served: nat -> nat, arrives: nat -> bool) {
    forall n :: SoonEnough(served, arrives, n)
  }

  /** A good round comes before the wait runs down. */
  ghost predicate WillDo(served: nat -> nat, arrives: nat -> bool, s: System, n: nat) {
    !s.host.phase.TimedOut? && (s.host.phase.Wait? ==> Soon(served, arrives, n, n + s.host.timeout - 1))
  }

  lemma RoundWillDo(j: Job, s: System, served: nat -> nat, arrives: nat -> bool, n: nat)
    requires Inv(j, s) && Few(s) && Enabled(s, HostActs)
    requires Responsive(served, arrives) && WillDo(served, arrives, s, n)
    ensures WillDo(served, arrives, Round(j, s, served(n), arrives(n)), n + 1)
  {
    RoundInTime(j, s, served(n), arrives(n));
    var t := Round(j, s, served(n), arrives(n));
    if t.host.phase.Wait? {
      assert SoonEnough(served, arrives, n);
      var upto := if s.host.phase.Wait? then n + s.host.timeout - 1 else n + 50;
      var m: nat :| n <= m < upto && Good(served(m), arrives(m));
      assert n + 1 <= m < n + 1 + t.host.timeout - 1;
    }
  }

  /** What holds before round n, when `said` has been sent. */
  ghost predicate Going(j: Job, s: System, said: seq<Command>, served: nat -> nat, arrives: nat -> bool, n: nat) {
    && Inv(j, s) && (Running(s) ==> !s.polling) && said + Unsaid(j, s) == Script(j)
    && (KeepsUp(served, arrives) ==> Quiet(s))
    && Few(s) && (Responsive(served, arrives) ==> WillDo(served, arrives, s, n))
  }

  /** The device serves in every round, and every reply arrives. */
  ghost predicate KeepsUp(served: nat -> nat, arrives: nat -> bool) {
    forall n :: served(n) > 0 && arrives(n)
  }

  lemma RoundKeeps(j: Job, s: System, said: seq<Command>, served: nat -> nat, arrives: nat -> bool, n: nat)
    requires Going(j, s, said, served, arrives, n) && Running(s)
    ensures var t := Round(j, s, served(n), arrives(n));
            Going(j, t, said + Act(j, s.host).1, served, arrives, n + 1) && 0 <= Fuel(j, t) < Fuel(j, s)
  {
    RoundInv(j, s, served(n), arrives(n));
    RoundFew(j, s, served(n), arrives(n));
    RoundSays(j, s, served(n), arrives(n));
    Assoc(said, Act(j, s.host).1, Unsaid(j, Round(j, s, served(n), arrives(n))));
    if Responsive(served, arrives) {
      RoundWillDo(j, s, served, arrives, n);
    }
    if KeepsUp(served, arrives) {
      RoundQuiet(j, s, served(n));
    }
  }

  class HostProgram {
    const job: Job
    var state: Phase
    var timeout: int
    var rbfptr: nat
    /** The commands that have been sent. */
    var said: seq<Command>

    function Abstract(): Host
      reads this
    {
      Host(state, timeout, rbfptr)
    }

    constructor (job: Job)
      ensures this.job == job && Abstract() == Init().host && said == []
    {
      this.job := job;
      state, timeout, rbfptr, said := QueryMac, 0, 0, [];
    }

    /** The first switch of the loop in main. */
    method PerformAction() returns (sent: seq<Command>)
      requires ValidJob(job)
      modifies this
      ensures (Abstract(), sent) == Act(job, old(Abstract())) && said == old(said) + sent
    {
      sent := [];
      match state {
        case QueryMac =>
          sent := [ReadMac];
          timeout, state := 50, Wait;
        case QueryIp =>
          sent := [ReadIp];
          timeout, state := 50, Wait;
        case SetIp =>
          sent := [WriteIp];
          state := Done;
          if job.upload {
            state := Erase;
          }
        case Erase =>
          sent := [EraseFlash];
          timeout, state := 18000, Wait;
        case Program =>
          var memory := Memory(job);
          if rbfptr + BLOCK <= |memory| {
            sent := [ProgramFlash(memory[rbfptr..rbfptr + BLOCK])];
          }
          rbfptr := rbfptr + 256;
          timeout, state := 50, Wait;
        case Wait =>
          timeout := timeout - 1;
          if timeout == 0 {
            state := TimedOut;
          }
        case Done =>
          state := Finished;
        case TimedOut =>
        case Finished =>
      }
      said := said + sent;
    }

    /** The second switch, for a packet that has passed the address check. */
    method TakePacket(r: Reply)
      modifies this`state
      ensures Abstract() == Receive(job, old(Abstract()), r)
    {
      match r {
        case HaveMac =>
          state := QueryIp;
        case HaveIp =>
          state := Done;
          if job.upload {
            state := Erase;
          }
          if job.burnIp {
            state := SetIp;
          }
        case EraseDone =>
          state := if job.upload then Program else Done;
        case SendMore =>
          if !job.upload || AllSent(job, rbfptr) {
            state := Done;
          } else {
            state := Program;
          }
      }
    }

    method PerformRound(s: System, served: nat, arrives: bool) returns (t: System)
      requires ValidJob(job) && s.host == Abstract() && Enabled(s, HostActs)
      modifies this
      ensures t == Round(job, s, served, arrives) && t.host == Abstract()
      ensures said == old(said) + Act(job, s.host).1
    {
      var sent := PerformAction();
      t := s.(host := Abstract(), polling := true, commands := s.commands + sent,
              awaited := s.awaited + RepliesTo(sent));
      assert t == Step(job, s, HostActs);
      ServeKeepsHost(job, t, served);
      t := Serve(job, t, served);
      if Running(t) {
        var deliver := arrives && t.replies != [];
        if deliver {
          TakePacket(t.replies[0]);
        }
        t := Step(job, t, HostPolls(deliver));
      }
    }

    /** The endless loop of main, until it returns. It always does; if it does so after an upload, the device has the
        image, and the commands sent are those of the script; and it ends in this way if the device keeps up and its
        replies arrive, or if no 50 rounds go by without one in which the device empties its queue and its reply
        arrives. */
    method Loop(served: nat -> nat, arrives: nat -> bool) returns (s: System)
      requires ValidJob(job) && Abstract() == Init().host && said == []
      modifies this
      ensures s.host == Abstract() && (state == Finished || state == TimedOut)
      ensures state == Finished && job.upload ==> s.image == Padded(job.file) + if job.strict then job.beyond else []
      ensures said <= Script(job) && (state == Finished ==> said == Script(job))
      ensures KeepsUp(served, arrives) ==> state == Finished
      ensures Responsive(served, arrives) ==> state == Finished
    {
      s := Init();
      InitInv(job);
      var n := 0;
      while Running(s)
        invariant s.host == Abstract() && Going(job, s, said, served, arrives, n)
        decreases Fuel(job, s)
      {
        RoundKeeps(job, s, said, served, arrives, n);
        s := PerformRound(s, served(n), arrives(n));
        n := n + 1;
      }
      if s.host.phase.Finished? && job.upload {
        FinishedHolds(job, s);
      }
    }
  }
}