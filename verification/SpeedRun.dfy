/** One test run as a concurrent system: the two senders, a loop that may lose,
    delay, reorder or damage packets but neither duplicates them nor touches
    their addresses, the receive hook with its bounded fifo, the command that
    starts the run, its compute thread and the compute thread of the run before.
    The run begins when line 614 zeroes the counters: from then on whatever either
    thread counts is counted for it. It starts with what earlier runs left in the
    loop and in the fifo, wherever the earlier thread stands. One action is one
    step; an action that is not enabled changes nothing. */
module SpeedRun {
  import opened Checksum
  import opened SpeedPacket
  import opened SpeedStatus

  datatype Sender =
    | Starting   // its packet and checksum not yet made
    | Between    // two packets
    | MidSend    // handed one over, not yet counted it
    | Over

  /** A direction: its counters, its sender and, for the statements, unbounded
      totals: packets earlier runs left on the way, packets handed to the device,
      counted as received, counted as errors, lost, and drained; of those received
      since the checksum was stored, the undamaged and the one-byte-damaged. */
  datatype Side = Side(st: Status, sender: Sender, stale: nat, handed: nat, rcvd: nat, errs: nat,
                       lost: nat, drained: nat, clean: nat, bent: nat)

  datatype Pair = Pair(zero: Side, one: Side)
  {
    function Get(d: nat): Side { if d == 0 then zero else one }

    function Set(d: nat, x: Side): Pair { if d == 0 then Pair(x, one) else Pair(zero, x) }
  }

  /** The command from line 614 on. */
  datatype CommandPc =
    | Zeroed    // before line 635 sets the fast hook
    | Looking   // line 545: is compute_task set?
    | Waiting   // in kthread_stop
    | Running   // compute thread and senders started

  datatype ComputePc =
    | Created    // not yet running
    | Counting   // lines 345-367
    | Checking   // the fifo was empty; lines 369-389
    | Draining   // lines 391-394
    | Drained
    | Nulled     // past line 395, compute_task cleared
    | Final      // past line 397, the probe hook back
    | Done       // losses computed

  datatype Who = Old | New

  datatype State = State(size: nat, room: nat, sides: Pair, loop: multiset<nat>,
                         fifo: seq<Packet>, fast: bool, cmd: CommandPc, prior: ComputePc, pc: ComputePc)

  /** What a run starts with: packet size, room in the fifo, whether the receive
      hook is the fast one, what is still in the loop and in the fifo, and where
      the compute thread of the run before stands. */
  datatype Setup = Setup(size: nat, room: nat, fast: bool, loop: multiset<nat>, fifo: seq<Packet>, prior: ComputePc)

  datatype SideEvent =
    | Begin                     // line 438 stores the checksum
    | Transmit                  // ndo_start_xmit succeeded
    | Bump                      // pktsend_count++
    | EndSender
    | Lose                      // the loop drops a packet
    | Deliver(frame: Packet)    // the loop brings one back

  datatype ThreadEvent =
    | Count       // it takes one from the fifo
    | EndCount    // it sees the fifo empty
    | Again       // it stays in its main loop
    | Leave       // it leaves it
    | DrainOne
    | EndDrain    // it sees the fifo empty
    | Null        // line 395
    | Reset       // line 397
    | Conclude    // lines 405-409

  datatype Action =
    | AtSide(d: nat, e: SideEvent)
    | Compute(w: Who, k: ThreadEvent)
    | SetFast         // line 635
    | Look            // lines 545 and 548, and the start of the threads
    | LateReset       // a compute thread older still runs line 397
    | LateConclude    // or lines 405-409

  function Built(size: nat, d: nat): (f: Bytes)
    ensures |f| >= 12
  {
    if MIN_SIZE <= size <= MAX_SIZE then TestFrame(Port(d), size) else seq(12, _ => 0)
  }

  /** The loop leaves the source address alone and keeps at least the tag. */
  predicate Intact(d: nat, frame: Packet) {
    Direction(frame) == d
  }

  /** The frame that would have arrived undamaged with the same tag. */
  function Expected(size: nat, d: nat, frame: Packet): (e: Bytes)
    ensures |e| == |Built(size, d)| + 4
  {
    Tagged(Built(size, d), frame[12..16])
  }

  predicate Clean(size: nat, d: nat, frame: Packet) {
    frame == Expected(size, d, frame)
  }

  /** Exactly one byte behind the tag differs. */
  predicate Bent(size: nat, d: nat, frame: Packet) {
    var e := Expected(size, d, frame);
    |frame| == |e| && exists i :: 18 <= i < |e| && frame[i] != e[i] && frame == e[i := frame[i]]
  }

  function InFifo(fifo: seq<Packet>, d: nat): nat {
    if fifo == [] then 0 else (if Direction(fifo[0]) == d then 1 else 0) + InFifo(fifo[1..], d)
  }

  /** The checksum each sender stores before its first packet, by its value;
      ReferenceIsStored ties it to the frame. */
  function Reference(size: nat): word {
    if MIN_SIZE <= size <= MAX_SIZE then Pseudo(size - 34) % 0xffff else 0
  }

  lemma ReferenceIsStored(size: nat, d: nat)
    requires MIN_SIZE <= size <= MAX_SIZE
    ensures Reference(size) == SentCsum(Built(size, d))
  {
    StoredIsPseudo(Port(d), Filler(size - MIN_SIZE));
  }

  function NewSide(stale: nat): Side {
    Side(Status(0, 0, 0, 0, 0, false), Starting, stale, 0, 0, 0, 0, 0, 0, 0)
  }

  function Init(c: Setup): State {
    State(c.size, c.room, Pair(NewSide(c.loop[0] + InFifo(c.fifo, 0)), NewSide(c.loop[1] + InFifo(c.fifo, 1))),
          c.loop, c.fifo, c.fast, Zeroed, c.prior, Created)
  }

  /** The run after s, with this packet size. */
  function After(s: State, size: nat): Setup {
    Setup(size, s.room, s.fast, s.loop, s.fifo, s.pc)
  }

  function Pc(s: State, w: Who): ComputePc { if w.Old? then s.prior else s.pc }

  function SetPc(s: State, w: Who, pc: ComputePc): State {
    if w.Old? then s.(prior := pc) else s.(pc := pc)
  }

  function Begun(size: nat, x: Side): Side { x.(sender := Between, st := x.st.(csum := Reference(size))) }

  function Transmitted(x: Side): Side { x.(sender := MidSend, handed := x.handed + 1) }

  function Bumped(x: Side): Side { x.(sender := Between, st := x.st.(send := Inc(x.st.send))) }

  function Counted(size: nat, d: nat, x: Side, frame: Packet): Side {
    var judged := !x.sender.Starting?;
    x.(st := Received(x.st, frame), rcvd := x.rcvd + 1,
       errs := x.errs + (if Mismatch(x.st, frame) then 1 else 0),
       clean := x.clean + (if judged && Clean(size, d, frame) then 1 else 0),
       bent := x.bent + (if judged && Bent(size, d, frame) then 1 else 0))
  }

  function Lost(s: State, d: nat): State {
    var x := s.sides.Get(d);
    s.(loop := s.loop - multiset{d}, sides := s.sides.Set(d, x.(lost := x.lost + 1)))
  }

  /** fast_rcv_speedtest_pkt queues the packet if there is room; a full fifo, or
      the probe hook, loses it. */
  function DeliverStep(s: State, d: nat, frame: Packet): State {
    if s.loop[d] == 0 || !Intact(d, frame) then s
    else if s.fast && |s.fifo| < s.room then s.(loop := s.loop - multiset{d}, fifo := s.fifo + [frame])
    else Lost(s, d)
  }

  /** A frame that carries neither address is freed and not counted. */
  function CountStep(s: State): State
    requires s.fifo != []
  {
    var d := Direction(s.fifo[0]);
    s.(fifo := s.fifo[1..],
       sides := if d < 2 then s.sides.Set(d, Counted(s.size, d, s.sides.Get(d), s.fifo[0])) else s.sides)
  }

  function DrainStep(s: State): State
    requires s.fifo != []
  {
    var d := Direction(s.fifo[0]);
    var x := s.sides.Get(d);
    s.(fifo := s.fifo[1..],
       sides := if d < 2 then s.sides.Set(d, x.(drained := x.drained + 1)) else s.sides)
  }

  function Concluded(x: Side): Side { x.(st := SpeedStatus.Finish(x.st)) }

  function ConcludeStep(s: State): State {
    s.(sides := Pair(Concluded(s.sides.zero), Concluded(s.sides.one)))
  }

  /** A compute thread's step. */
  function ThreadStep(s: State, w: Who, k: ThreadEvent): State {
    match Pc(s, w)
    case Counting =>
      if k.Count? && s.fifo != [] then CountStep(s)
      else if k.EndCount? && s.fifo == [] then SetPc(s, w, Checking) else s
    case Checking => if k.Again? then SetPc(s, w, Counting) else if k.Leave? then SetPc(s, w, Draining) else s
    case Draining =>
      if k.DrainOne? && s.fifo != [] then DrainStep(s)
      else if k.EndDrain? && s.fifo == [] then SetPc(s, w, Drained) else s
    case Drained => if k.Null? then SetPc(s, w, Nulled) else s
    case Nulled => if k.Reset? then SetPc(s, w, Final).(fast := false) else s
    case Final => if k.Conclude? then ConcludeStep(SetPc(s, w, Done)) else s
    case _ => s
  }

  /** compute_task is NULL. */
  predicate TaskCleared(pc: ComputePc) { pc.Nulled? || pc.Final? || pc.Done? }

  /** The stop loop goes on when compute_task is NULL; kthread_stop returns when
      the thread has ended. */
  function LookStep(s: State): State {
    if (s.cmd.Looking? && TaskCleared(s.prior)) || (s.cmd.Waiting? && s.prior.Done?)
    then s.(cmd := Running, pc := Counting)
    else if s.cmd.Looking? then s.(cmd := Waiting) else s
  }

  function SideStep(s: State, d: nat, e: SideEvent): State {
    var x := s.sides.Get(d);
    match e
    case Begin =>
      if x.sender.Starting? && s.cmd.Running? then s.(sides := s.sides.Set(d, Begun(s.size, x))) else s
    case Transmit =>
      if x.sender.Between?
      then s.(sides := s.sides.Set(d, Transmitted(x)), loop := s.loop + multiset{d}) else s
    case Bump => if x.sender.MidSend? then s.(sides := s.sides.Set(d, Bumped(x))) else s
    case EndSender => if x.sender.Between? then s.(sides := s.sides.Set(d, x.(sender := Over))) else s
    case Lose => if s.loop[d] > 0 then Lost(s, d) else s
    case Deliver(frame) => DeliverStep(s, d, frame)
  }

  function Step(s: State, a: Action): State {
    match a
    case AtSide(d, e) => if d < 2 then SideStep(s, d, e) else s
    case Compute(w, k) => ThreadStep(s, w, k)
    case SetFast => if s.cmd.Zeroed? then s.(cmd := Looking, fast := true) else s
    case Look => LookStep(s)
    case LateReset => s.(fast := false)
    case LateConclude => ConcludeStep(s)
  }

  function Run(s: State, acts: seq<Action>): State
    decreases |acts|
  {
    if acts == [] then s else Step(Run(s, acts[..|acts| - 1]), acts[|acts| - 1])
  }

  // ----- the invariant

  /** The counters are the true totals modulo 2^64; one packet may be handed
      over and not yet counted as sent. Once the checksum is stored, every packet
      with one damaged byte is an error and no undamaged one is. */
  predicate Counters(ref: word, x: Side) {
    && (x.sender.MidSend? ==> x.handed > 0)
    && x.st.send == Wrap(x.handed - if x.sender.MidSend? then 1 else 0)
    && x.st.rcv == Wrap(x.rcvd) && x.st.err == Wrap(x.errs)
    && x.bent <= x.errs && x.errs + x.clean <= x.rcvd
    && x.st.csum == if x.sender.Starting? then 0 else ref
  }

  /** Every packet handed to the device, or left from earlier, is in exactly one place. */
  predicate Balanced(s: State, d: nat) {
    var x := s.sides.Get(d);
    x.handed + x.stale == s.loop[d] + InFifo(s.fifo, d) + x.rcvd + x.lost + x.drained
  }

  predicate SideInv(s: State, d: nat) {
    Balanced(s, d) && Counters(Reference(s.size), s.sides.Get(d))
  }

  predicate Inv(s: State) {
    SideInv(s, 0) && SideInv(s, 1)
  }

  lemma {:induction false} InFifoAppend(fifo: seq<Packet>, frame: Packet, d: nat)
    ensures InFifo(fifo + [frame], d) == InFifo(fifo, d) + if Direction(frame) == d then 1 else 0
  {
    if fifo == [] {
      assert (fifo + [frame])[1..] == [];
    } else {
      assert (fifo + [frame])[1..] == fifo[1..] + [frame];
      InFifoAppend(fifo[1..], frame, d);
    }
  }

  lemma CleanMatchesStored(size: nat, d: nat, frame: Packet, st: Status)
    requires MIN_SIZE <= size <= MAX_SIZE && st.csum == Reference(size)
    ensures Clean(size, d, frame) ==> !Mismatch(st, frame)
    ensures Bent(size, d, frame) ==> Mismatch(st, frame)
  {
    var e := Expected(size, d, frame);
    ReferenceIsStored(size, d);
    TagIsSkipped(Built(size, d), frame[12..16]);
    if Bent(size, d, frame) {
      var i :| 18 <= i < |e| && frame[i] != e[i] && frame == e[i := frame[i]];
      assert frame[18..] == e[18..][i - 18 := frame[i]];
      OneByteChangesCsum(e[18..], i - 18, frame[i]);
    }
  }

  lemma IncMod(n: int)
    ensures Inc(Wrap(n)) == Wrap(n + 1)
  {}

  lemma CountedKeeps(size: nat, d: nat, x: Side, frame: Packet)
    requires Counters(Reference(size), x) && MIN_SIZE <= size <= MAX_SIZE
    ensures Counters(Reference(size), Counted(size, d, x, frame))
  {
    IncMod(x.rcvd);
    IncMod(x.errs);
    if !x.sender.Starting? { CleanMatchesStored(size, d, frame, x.st); }
  }

  lemma CountKeeps(s: State)
    requires Inv(s) && MIN_SIZE <= s.size <= MAX_SIZE && s.fifo != []
    ensures Inv(CountStep(s))
  {
    var d := Direction(s.fifo[0]);
    if d < 2 {
      CountedKeeps(s.size, d, s.sides.Get(d), s.fifo[0]);
      assert SideInv(CountStep(s), d);
    }
  }

  lemma DeliverKeeps(s: State, d: nat, frame: Packet)
    requires Inv(s) && d < 2 && s.loop[d] > 0 && Intact(d, frame)
    requires s.fast && |s.fifo| < s.room
    ensures Inv(DeliverStep(s, d, frame))
  {
    InFifoAppend(s.fifo, frame, 0);
    InFifoAppend(s.fifo, frame, 1);
  }

  lemma DrainKeeps(s: State)
    requires Inv(s) && s.fifo != []
    ensures Inv(DrainStep(s))
  {
    var d := Direction(s.fifo[0]);
    assert DrainStep(s).fifo == s.fifo[1..];
    if d < 2 { assert Counters(Reference(s.size), DrainStep(s).sides.Get(d)); }
  }

  lemma ConcludedCounters(ref: word, x: Side)
    requires Counters(ref, x)
    ensures Counters(ref, Concluded(x)) && Concluded(x).handed == x.handed && Concluded(x).rcvd == x.rcvd
    ensures Concluded(x).stale == x.stale
    ensures Concluded(x).lost == x.lost && Concluded(x).drained == x.drained
  {}

  lemma ConcludeKeeps(s: State)
    requires Inv(s)
    ensures Inv(ConcludeStep(s))
  {
    ConcludedCounters(Reference(s.size), s.sides.zero);
    ConcludedCounters(Reference(s.size), s.sides.one);
  }

  lemma LostKeeps(s: State, d: nat)
    requires Inv(s) && d < 2 && s.loop[d] > 0
    ensures Inv(Lost(s, d))
  {
    assert Counters(Reference(s.size), Lost(s, d).sides.Get(d));
  }

  /** A step of the sender alone leaves fifo, and the other totals, as they are. */
  lemma SenderKeeps(s: State, d: nat, x': Side, loop': multiset<nat>)
    requires Inv(s) && d < 2 && Counters(Reference(s.size), x')
    requires var x := s.sides.Get(d);
      && x'.stale == x.stale && x'.rcvd == x.rcvd && x'.lost == x.lost && x'.drained == x.drained
      && loop'[d] - x'.handed == s.loop[d] - x.handed && loop'[1 - d] == s.loop[1 - d]
    ensures Inv(s.(sides := s.sides.Set(d, x'), loop := loop'))
  {}

  lemma SenderStepKeeps(s: State, d: nat, e: SideEvent)
    requires Inv(s) && d < 2 && !e.Lose? && !e.Deliver?
    ensures Inv(SideStep(s, d, e))
  {
    var x := s.sides.Get(d);
    match e
    case Begin =>
      if x.sender.Starting? { SenderKeeps(s, d, Begun(s.size, x), s.loop); }
    case Transmit =>
      if x.sender.Between? { SenderKeeps(s, d, Transmitted(x), s.loop + multiset{d}); }
    case Bump =>
      if x.sender.MidSend? {
        IncMod(x.handed - 1);
        SenderKeeps(s, d, Bumped(x), s.loop);
      }
    case EndSender =>
      if x.sender.Between? { SenderKeeps(s, d, x.(sender := Over), s.loop); }
  }

  lemma SideKeeps(s: State, d: nat, e: SideEvent)
    requires Inv(s) && d < 2
    ensures Inv(SideStep(s, d, e))
  {
    if e.Lose? {
      if s.loop[d] > 0 { LostKeeps(s, d); }
    } else if !e.Deliver? {
      SenderStepKeeps(s, d, e);
    } else if s.loop[d] > 0 && Intact(d, e.frame) {
      if s.fast && |s.fifo| < s.room { DeliverKeeps(s, d, e.frame); } else { LostKeeps(s, d); }
    }
  }

  lemma ThreadKeeps(s: State, w: Who, k: ThreadEvent)
    requires Inv(s) && MIN_SIZE <= s.size <= MAX_SIZE
    ensures Inv(ThreadStep(s, w, k))
  {
    match Pc(s, w)
    case Counting => if s.fifo != [] { CountKeeps(s); }
    case Draining => if s.fifo != [] { DrainKeeps(s); }
    case Final => ConcludeKeeps(SetPc(s, w, Done));
    case _ =>
  }

  lemma StepKeeps(s: State, a: Action)
    requires Inv(s) && MIN_SIZE <= s.size <= MAX_SIZE
    ensures Inv(Step(s, a))
  {
    match a
    case AtSide(d, e) => if d < 2 { SideKeeps(s, d, e); }
    case Compute(w, k) => ThreadKeeps(s, w, k);
    case SetFast =>
    case Look =>
    case LateReset =>
    case LateConclude => ConcludeKeeps(s);
  }

  lemma SizeKept(s: State, a: Action)
    ensures Step(s, a).size == s.size
  {}

  lemma {:induction false} RunKeeps(c: Setup, acts: seq<Action>)
    requires MIN_SIZE <= c.size <= MAX_SIZE
    ensures var s := Run(Init(c), acts); Inv(s) && s.size == c.size
    decreases |acts|
  {
    if acts != [] {
      RunKeeps(c, acts[..|acts| - 1]);
      var s := Run(Init(c), acts[..|acts| - 1]);
      StepKeeps(s, acts[|acts| - 1]);
      SizeKept(s, acts[|acts| - 1]);
    }
  }

  /** s is a state of some run from this setup. */
  ghost predicate Reached(c: Setup, s: State) {
    exists acts :: Run(Init(c), acts) == s
  }

  lemma ReachedInv(c: Setup, s: State)
    requires MIN_SIZE <= c.size <= MAX_SIZE && Reached(c, s)
    ensures Inv(s)
  {
    var acts :| Run(Init(c), acts) == s;
    RunKeeps(c, acts);
  }

  /** For each direction, in every state of every run, whatever earlier runs left
      behind and whichever thread counts: packets are conserved, and the counters
      tell the truth. */
  lemma Conservation(c: Setup, s: State, d: nat)
    requires MIN_SIZE <= c.size <= MAX_SIZE && d < 2 && Reached(c, s)
    ensures Balanced(s, d) && Counters(Reference(s.size), s.sides.Get(d))
    ensures var x := s.sides.Get(d); x.errs <= x.rcvd <= x.handed + x.stale
  {
    ReachedInv(c, s);
    OneSide(s, d);
  }

  lemma OneSide(s: State, d: nat)
    requires Inv(s) && d < 2
    ensures SideInv(s, d) && s.sides.Get(d).errs <= s.sides.Get(d).rcvd
    ensures s.sides.Get(d).rcvd <= s.sides.Get(d).handed + s.sides.Get(d).stale
  {}

  predicate AddsUp(st: Status) { Wrap(st.rcv + st.err + st.lose) == st.send }

  /** The loss figure is right about this many undelivered packets. */
  predicate LossRight(st: Status, undelivered: nat) { st.lose == Wrap(undelivered) }

  lemma ConcludeSide(s: State, d: nat)
    requires s.pc == Final && d < 2
    ensures Step(s, Compute(New, Conclude)).sides.Get(d) == Concluded(s.sides.Get(d))
  {}

  /** What the loss figure takes for undelivered, against what is. */
  lemma ConcludedLoss(ref: word, x: Side, undelivered: nat)
    requires Counters(ref, x) && !x.sender.MidSend? && x.errs + x.stale < 0x1_0000_0000_0000_0000
    requires x.handed + x.stale == undelivered + x.rcvd
    ensures var st := Concluded(x).st;
      AddsUp(st) && (LossRight(st, undelivered) <==> x.errs == 0 && x.stale == 0)
  {
    LossMeans(x.handed, x.rcvd, x.errs);
    LossIs(x.handed, x.rcvd, x.errs);
    WrapSmall(x.errs);
    assert Concluded(x).st.lose == Loss(Wrap(x.handed), Wrap(x.rcvd), x.errs);
    assert x.handed - x.rcvd - x.errs == undelivered - (x.errs + x.stale);
    if x.errs + x.stale > 0 { WrapDiffers(undelivered, x.errs + x.stale); }
  }

  function Undelivered(s: State, d: nat): nat {
    s.loop[d] + InFifo(s.fifo, d) + s.sides.Get(d).lost + s.sides.Get(d).drained
  }

  /** When the run concludes with the sender between packets, send count =
      received + errors + loss figure modulo 2^64, and the loss figure is the
      number of packets that never got counted exactly when no error was counted
      and earlier runs left nothing on the way. */
  lemma LossAtEnd(c: Setup, s: State, d: nat)
    requires MIN_SIZE <= c.size <= MAX_SIZE && d < 2 && Reached(c, s)
    requires s.pc == Final && !s.sides.Get(d).sender.MidSend?
    requires s.sides.Get(d).errs + s.sides.Get(d).stale < 0x1_0000_0000_0000_0000
    ensures var x, st := s.sides.Get(d), Step(s, Compute(New, Conclude)).sides.Get(d).st;
      AddsUp(st) && (LossRight(st, Undelivered(s, d)) <==> x.errs == 0 && x.stale == 0)
  {
    ReachedInv(c, s);
    OneSide(s, d);
    ConcludedLoss(Reference(s.size), s.sides.Get(d), Undelivered(s, d));
    ConcludeSide(s, d);
  }
}
