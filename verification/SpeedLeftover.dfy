/** Runs of the line-speed tester that end in wrong figures, and exactly when a
    run without the fast receive path reports every packet as lost: what the
    compute thread of the run before still counts, and what it leaves in the
    fifo, is counted for this one. */
module SpeedLeftover {
  import opened Checksum
  import opened SpeedPacket
  import opened SpeedStatus
  import opened SpeedRun

  /** t comes after s. From the start of a run this is being reached. */
  ghost predicate From(s: State, t: State) {
    exists acts :: Run(s, acts) == t
  }

  lemma Extend(s0: State, s: State, a: Action) returns (t: State)
    requires From(s0, s)
    ensures t == Step(s, a) && From(s0, t)
  {
    t := Step(s, a);
    var acts :| Run(s0, acts) == s;
    assert (acts + [a])[..|acts|] == acts;
    assert Run(s0, acts + [a]) == t;
  }

  lemma StartOf(s: State)
    ensures From(s, s)
  {
    assert Run(s, []) == s;
  }

  /** With the earlier thread gone the command starts this run's threads. */
  lemma StartThreads(s0: State, s: State) returns (t: State)
    requires From(s0, s) && s.cmd.Zeroed? && s.prior.Done?
    ensures From(s0, t) && t == s.(fast := true, cmd := Running, pc := Counting)
  {
    t := Extend(s0, s, SetFast);
    t := Extend(s0, t, Look);
  }

  /** One packet of direction d is sent, and is in the loop when its sender ends. */
  lemma SendOne(c: Setup, d: nat) returns (s: State)
    requires d < 2 && c.prior.Done?
    ensures From(Init(c), s)
    ensures s == Init(c).(fast := true, cmd := Running, pc := Counting, loop := c.loop + multiset{d},
                          sides := Init(c).sides.Set(d, Sent(c.size, Init(c).sides.Get(d))))
  {
    var s0 := Init(c);
    StartOf(s0);
    s := StartThreads(s0, s0);
    s := Extend(s0, s, AtSide(d, Begin));
    s := Extend(s0, s, AtSide(d, Transmit));
    s := Extend(s0, s, AtSide(d, Bump));
    s := Extend(s0, s, AtSide(d, EndSender));
  }

  /** A side whose sender sent one packet and ended. */
  function Sent(size: nat, x: Side): Side {
    Bumped(Transmitted(Begun(size, x))).(sender := Over)
  }

  /** Its undamaged frame, tagged, with one byte of the payload changed. */
  function Damaged(size: nat, d: nat): (f: Packet)
    requires MIN_SIZE <= size <= MAX_SIZE
  {
    var e := Tagged(Built(size, d), [0, 0, 0, 0]);
    e[18 := if e[18] == 0 then 1 else 0]
  }

  lemma DamagedIsBent(size: nat, d: nat)
    requires d < 2 && MIN_SIZE <= size <= MAX_SIZE
    ensures Bent(size, d, Damaged(size, d)) && Direction(Damaged(size, d)) == d
  {
    var e, f := Tagged(Built(size, d), [0, 0, 0, 0]), Damaged(size, d);
    OwnDirection(d, size, [0, 0, 0, 0]);
    assert f[6..12] == e[6..12];
    assert f[12..16] == [0, 0, 0, 0];
    assert Expected(size, d, f) == e;
    assert f[18] != e[18] && f == e[18 := f[18]];
  }

  /** Nothing in the loop or the fifo, and no earlier run. */
  function Clear(size: nat, room: nat): Setup {
    Setup(size, room, false, multiset{}, [], Done)
  }

  /** From the last look at the fifo until the probe hook is back. */
  lemma PutBack(s0: State, s: State, w: Who) returns (t: State)
    requires From(s0, s) && Pc(s, w) == Drained
    ensures From(s0, t) && t == SetPc(s, w, Final).(fast := false)
  {
    t := Extend(s0, s, Compute(w, Null));
    t := Extend(s0, t, Compute(w, Reset));
  }

  lemma WindUp(s0: State, s: State, w: Who) returns (t: State)
    requires From(s0, s) && Pc(s, w) == Drained
    ensures From(s0, t) && t == ConcludeStep(SetPc(s, w, Done).(fast := false))
  {
    t := PutBack(s0, s, w);
    t := Extend(s0, t, Compute(w, Conclude));
  }

  lemma LeaveEmpty(s0: State, s: State, w: Who) returns (t: State)
    requires From(s0, s) && Pc(s, w) == Counting && s.fifo == []
    ensures From(s0, t) && t == SetPc(s, w, Drained)
  {
    t := Extend(s0, s, Compute(w, EndCount));
    t := Extend(s0, t, Compute(w, Leave));
    t := Extend(s0, t, Compute(w, EndDrain));
  }

  lemma FigureIs(x: Side)
    requires x.st.send == 1 && x.st.rcv == 1 && x.st.err == 1
    ensures Concluded(x).st.lose == 0xffff_ffff_ffff_ffff
  {}

  /** The one packet on its way comes back as f and is counted. */
  lemma ReturnOne(s0: State, s: State, d: nat, f: Packet) returns (t: State)
    requires From(s0, s) && s.pc == Counting && s.fifo == [] && s.fast && s.room > 0
    requires d < 2 && Direction(f) == d && s.loop[d] > 0
    ensures From(s0, t) && t.pc == Counting && t.fifo == []
    ensures t.sides.Get(d).st == Received(s.sides.Get(d).st, f)
  {
    t := Extend(s0, s, AtSide(d, Deliver(f)));
    assert t == s.(loop := t.loop, fifo := [f]);
    t := Extend(s0, t, Compute(New, Count));
  }

  lemma SentOne(size: nat)
    ensures Sent(size, NewSide(0)).st == Status(1, 0, 0, 0, Reference(size), false)
  {}

  lemma ReceivedMismatch(st: Status, f: Packet)
    requires Mismatch(st, f) && st.rcv == 0 && st.err == 0
    ensures Received(st, f) == st.(rcv := 1, err := 1)
  {}

  lemma SentThenBent(size: nat, d: nat, f: Packet)
    requires MIN_SIZE <= size <= MAX_SIZE && Bent(size, d, f)
    ensures var st := Received(Sent(size, NewSide(0)).st, f); st.send == 1 && st.rcv == 1 && st.err == 1
  {
    SentOne(size);
    var st := Sent(size, NewSide(0)).st;
    CleanMatchesStored(size, d, f, st);
    ReceivedMismatch(st, f);
  }

  /** The packet sent comes back damaged and is counted. */
  lemma CountDamaged(c: Setup, d: nat) returns (s: State)
    requires c == Clear(c.size, c.room) && c.room > 0 && d < 2 && MIN_SIZE <= c.size <= MAX_SIZE
    ensures From(Init(c), s) && s.pc == Counting && s.fifo == []
    ensures var st := s.sides.Get(d).st; st.send == 1 && st.rcv == 1 && st.err == 1
  {
    DamagedIsBent(c.size, d);
    s := SendOne(c, d);
    SentThenBent(c.size, d, Damaged(c.size, d));
    assert s.sides.Get(d) == Sent(c.size, NewSide(0));
    s := ReturnOne(Init(c), s, d, Damaged(c.size, d));
  }

  /** Errors are subtracted twice: one packet sent, returned with one byte damaged
      and counted, ends with a loss figure of 2^64 - 1. */
  lemma ErrorSpoilsLoss(size: nat, room: nat, d: nat)
    requires room > 0 && d < 2 && MIN_SIZE <= size <= MAX_SIZE
    ensures exists s :: Reached(Clear(size, room), s) && s.pc == Done &&
              var st := s.sides.Get(d).st;
              st.send == 1 && st.rcv == 1 && st.err == 1 && st.lose == 0xffff_ffff_ffff_ffff
  {
    var c := Clear(size, room);
    var s := CountDamaged(c, d);
    FigureIs(s.sides.Get(d));
    s := LeaveEmpty(Init(c), s, New);
    s := WindUp(Init(c), s, New);
  }

  /** A packet that comes back after the drain and before the probe hook is back
      stays in the fifo of the finished run. */
  lemma LeftoverReachable(size: nat, room: nat, d: nat, f: Packet)
    requires room > 0 && d < 2 && MIN_SIZE <= size <= MAX_SIZE && Direction(f) == d
    ensures exists s :: Reached(Clear(size, room), s) && s.pc == Done && s.fifo == [f] && s.loop == multiset{}
  {
    var c := Clear(size, room);
    var s := SendOne(c, d);
    s := LeaveEmpty(Init(c), s, New);
    s := Extend(Init(c), s, AtSide(d, Deliver(f)));
    assert s.loop == multiset{};
    s := WindUp(Init(c), s, New);
  }

  lemma ReferencesDiffer(size: nat, size2: nat)
    requires MIN_SIZE <= size < size2 <= MAX_SIZE
    ensures Reference(size) != Reference(size2)
  {
    ResiduesDiffer(Pseudo(size - 34), Pseudo(size2 - 34));
  }

  lemma ResiduesDiffer(a: nat, b: nat)
    requires a < b < a + 0xffff
    ensures a % 0xffff != b % 0xffff
  {}

  /** And once the checksum is stored an undamaged packet of another size is
      always counted as an error. */
  lemma OtherSizeIsError(size: nat, size2: nat, d: nat, tag: Bytes, st: Status)
    requires MIN_SIZE <= size <= MAX_SIZE && MIN_SIZE <= size2 <= MAX_SIZE && size != size2
    requires st.csum == Reference(size) && |tag| == TAG_LEN
    ensures Mismatch(st, Tagged(Built(size2, d), tag))
  {
    TagIsSkipped(Built(size2, d), tag);
    ReferenceIsStored(size2, d);
    ReferencesDiffer(if size < size2 then size else size2, if size < size2 then size2 else size);
  }

  // ----- a run without the fast path

  /** Nothing received, and everything sent reported as lost. */
  predicate AllLost(st: Status) {
    st.rcv == 0 && st.err == 0 && st.lose == st.send
  }

  lemma AllLostWhen(ref: word, x: Side)
    requires Counters(ref, x) && x.rcvd < 0x1_0000_0000_0000_0000
    ensures AllLost(Concluded(x).st) <==> x.rcvd == 0
  {
    WrapSmall(x.rcvd);
  }

  /** Any run ends with everything reported as lost exactly when neither thread
      counted a packet of the direction since line 614. */
  lemma AllReportedLost(c: Setup, s: State, d: nat)
    requires MIN_SIZE <= c.size <= MAX_SIZE && d < 2 && Reached(c, s) && s.pc == Final
    requires s.sides.Get(d).rcvd < 0x1_0000_0000_0000_0000
    ensures AllLost(Step(s, Compute(New, Conclude)).sides.Get(d).st) <==> s.sides.Get(d).rcvd == 0
  {
    ReachedInv(c, s);
    OneSide(s, d);
    ConcludeSide(s, d);
    AllLostWhen(Reference(s.size), s.sides.Get(d));
  }

  /** This run's compute thread counts, and the fast hook is not set. */
  predicate Slow(s: State) { s.cmd.Running? && s.pc.Counting? && !s.fast }

  /** The run's threads start only after the earlier one has cleared compute_task. */
  predicate Apart(s: State) { s.cmd.Running? ==> TaskCleared(s.prior) }

  lemma ApartKeeps(s: State, a: Action)
    requires Apart(s)
    ensures Apart(Step(s, a))
  {}

  lemma {:induction false} ApartRun(c: Setup, acts: seq<Action>)
    ensures Apart(Run(Init(c), acts))
    decreases |acts|
  {
    if acts != [] {
      ApartRun(c, acts[..|acts| - 1]);
      ApartKeeps(Run(Init(c), acts[..|acts| - 1]), acts[|acts| - 1]);
    }
  }

  lemma ReachedApart(c: Setup, s: State)
    requires Reached(c, s)
    ensures Apart(s)
  {
    var acts :| Run(Init(c), acts) == s;
    ApartRun(c, acts);
  }

  /** From there nothing comes in: the thread will have counted this many. */
  predicate Bound(s: State, d: nat, total: nat) {
    && s.cmd.Running? && !s.fast && TaskCleared(s.prior) && !s.pc.Created?
    && (!s.pc.Counting? ==> s.fifo == [])
    && s.sides.Get(d).rcvd + InFifo(s.fifo, d) == total
  }

  lemma BoundCounts(s: State, w: Who, k: ThreadEvent, d: nat, total: nat)
    requires Bound(s, d, total) && d < 2
    ensures Bound(ThreadStep(s, w, k), d, total)
  {
    if Pc(s, w).Counting? && s.fifo != [] {
      assert CountStep(s).fifo == s.fifo[1..];
    }
  }

  lemma BoundSides(s: State, e: nat, x: SideEvent, d: nat, total: nat)
    requires Bound(s, d, total) && d < 2 && e < 2
    ensures Bound(SideStep(s, e, x), d, total)
  {
    assert SideStep(s, e, x).fifo == s.fifo;
  }

  lemma BoundKeeps(s: State, a: Action, d: nat, total: nat)
    requires Bound(s, d, total) && d < 2
    ensures Bound(Step(s, a), d, total)
  {
    match a
    case AtSide(e, x) => if e < 2 { BoundSides(s, e, x, d, total); }
    case Compute(w, k) => BoundCounts(s, w, k, d, total);
    case _ =>
  }

  lemma {:induction false} BoundRun(s: State, acts: seq<Action>, d: nat, total: nat)
    requires Bound(s, d, total) && d < 2
    ensures Bound(Run(s, acts), d, total)
    decreases |acts|
  {
    if acts != [] {
      BoundRun(s, acts[..|acts| - 1], d, total);
      BoundKeeps(Run(s, acts[..|acts| - 1]), acts[|acts| - 1], d, total);
    }
  }

  lemma {:induction false} FromTrans(s0: State, s: State, acts: seq<Action>)
    requires From(s0, s)
    ensures From(s0, Run(s, acts))
    decreases |acts|
  {
    if acts != [] {
      FromTrans(s0, s, acts[..|acts| - 1]);
      var _ := Extend(s0, Run(s, acts[..|acts| - 1]), acts[|acts| - 1]);
    }
  }

  /** While the run's thread counts without the fast hook its outcome is fixed: it
      ends with everything reported as lost exactly when no packet of the direction
      was counted since line 614, by either thread, and none waits in the fifo. */
  lemma OutcomeFixed(c: Setup, s: State, t: State, d: nat)
    requires MIN_SIZE <= c.size <= MAX_SIZE && d < 2 && Reached(c, s) && Slow(s)
    requires From(s, t) && t.pc == Final
    requires s.sides.Get(d).rcvd + InFifo(s.fifo, d) < 0x1_0000_0000_0000_0000
    ensures AllLost(Step(t, Compute(New, Conclude)).sides.Get(d).st)
       <==> s.sides.Get(d).rcvd == 0 && InFifo(s.fifo, d) == 0
  {
    ReachedApart(c, s);
    var acts :| Run(s, acts) == t;
    BoundRun(s, acts, d, s.sides.Get(d).rcvd + InFifo(s.fifo, d));
    assert From(Init(c), s);
    FromTrans(Init(c), s, acts);
    assert Reached(c, t) && t.fifo == [];
    AllReportedLost(c, t, d);
  }

  // ----- seen from line 614

  predicate NotSending(s: State) { s.sides.zero.sender.Starting? && s.sides.one.sender.Starting? }

  /** Whenever the run's threads start without the fast hook, everything is
      reported as lost at the end. */
  ghost predicate AlwaysAllLost(c: Setup, d: nat) {
    forall s, t :: Reached(c, s) && Slow(s) && NotSending(s) && From(s, t) && t.pc == Final ==>
      AllLost(Step(t, Compute(New, Conclude)).sides.Get(d).st)
  }

  /** While the senders have not begun: nothing of direction d was counted or is
      on its way, except what the earlier thread is draining. */
  predicate NoneLeft(s: State, d: nat) {
    && Apart(s)
    && (NotSending(s) ==>
          s.loop[d] == 0 && s.sides.Get(d).rcvd == 0 &&
          (InFifo(s.fifo, d) == 0 || (s.prior.Draining? && !s.cmd.Running?)))
    && (s.pc.Created? || s.cmd.Running?)
  }

  lemma NoneLeftThread(s: State, w: Who, k: ThreadEvent, d: nat)
    requires NoneLeft(s, d) && d < 2
    ensures NoneLeft(ThreadStep(s, w, k), d)
  {
    if (Pc(s, w).Counting? || Pc(s, w).Draining?) && s.fifo != [] {
      assert CountStep(s).fifo == s.fifo[1..] && DrainStep(s).fifo == s.fifo[1..];
    }
  }

  lemma NoneLeftSide(s: State, e: nat, x: SideEvent, d: nat)
    requires NoneLeft(s, d) && d < 2 && e < 2
    ensures NoneLeft(SideStep(s, e, x), d)
  {
    if x.Deliver? { InFifoAppend(s.fifo, x.frame, d); }
  }

  lemma NoneLeftKeeps(s: State, a: Action, d: nat)
    requires NoneLeft(s, d) && d < 2
    ensures NoneLeft(Step(s, a), d)
  {
    match a
    case AtSide(e, x) => if e < 2 { NoneLeftSide(s, e, x, d); }
    case Compute(w, k) => NoneLeftThread(s, w, k, d);
    case _ =>
  }

  lemma {:induction false} NoneLeftRun(c: Setup, acts: seq<Action>, d: nat)
    requires d < 2 && c.loop[d] == 0 && (InFifo(c.fifo, d) == 0 || c.prior.Draining?)
    ensures NoneLeft(Run(Init(c), acts), d)
    decreases |acts|
  {
    if acts != [] {
      NoneLeftRun(c, acts[..|acts| - 1], d);
      NoneLeftKeeps(Run(Init(c), acts[..|acts| - 1]), acts[|acts| - 1], d);
    }
  }

  // the other way: runs that count one

  lemma {:induction false} CountAll(s0: State, s: State, w: Who, d: nat) returns (t: State)
    requires From(s0, s) && Pc(s, w).Counting? && d < 2 && NotSending(s)
    ensures From(s0, t) && t == s.(fifo := [], sides := t.sides) && NotSending(t)
    ensures t.sides.Get(d).rcvd == s.sides.Get(d).rcvd + InFifo(s.fifo, d)
    decreases |s.fifo|
  {
    if s.fifo == [] {
      t := s;
    } else {
      t := Extend(s0, s, Compute(w, Count));
      t := CountAll(s0, t, w, d);
    }
  }

  lemma {:induction false} DrainAll(s0: State, s: State, w: Who, d: nat) returns (t: State)
    requires From(s0, s) && Pc(s, w).Draining? && d < 2 && NotSending(s)
    ensures From(s0, t) && t == s.(fifo := [], sides := t.sides) && NotSending(t)
    ensures t.sides.Get(d).rcvd == s.sides.Get(d).rcvd
    decreases |s.fifo|
  {
    if s.fifo == [] {
      t := s;
    } else {
      t := Extend(s0, s, Compute(w, DrainOne));
      t := DrainAll(s0, t, w, d);
    }
  }

  /** The earlier thread comes to its end before line 635; what it finds in the
      fifo it counts, unless it is draining already. */
  lemma PriorEnds(s0: State, s: State, d: nat) returns (t: State)
    requires From(s0, s) && s.cmd.Zeroed? && !s.prior.Created? && d < 2 && NotSending(s)
    ensures From(s0, t) && t.cmd.Zeroed? && t.prior.Done? && NotSending(t)
    ensures t.loop == s.loop && t.room == s.room && t.size == s.size && |t.fifo| <= |s.fifo|
    ensures var k, l := t.sides.Get(d).rcvd + InFifo(t.fifo, d), s.sides.Get(d).rcvd + InFifo(s.fifo, d);
            k <= l && (!s.prior.Draining? ==> k == l)
  {
    t := s;
    if s.prior.Checking? { t := Extend(s0, t, Compute(Old, Again)); }
    if t.prior.Counting? {
      t := CountAll(s0, t, Old, d);
      t := LeaveEmpty(s0, t, Old);
    } else if t.prior.Draining? {
      t := DrainAll(s0, t, Old, d);
      t := Extend(s0, t, Compute(Old, EndDrain));
    }
    t := PriorWindsUp(s0, t, d);
  }

  lemma ConcludeFrame(s: State, d: nat)
    requires d < 2
    ensures NotSending(ConcludeStep(s)) == NotSending(s)
    ensures ConcludeStep(s).sides.Get(d).rcvd == s.sides.Get(d).rcvd
    ensures ConcludeStep(s).sides.Get(d).st.rcv == s.sides.Get(d).st.rcv
    ensures ConcludeStep(s) == s.(sides := ConcludeStep(s).sides)
  {}

  lemma PriorConcludes(s0: State, s: State, d: nat) returns (t: State)
    requires From(s0, s) && s.prior.Final? && d < 2 && NotSending(s)
    ensures From(s0, t) && t == s.(prior := Done, sides := t.sides) && NotSending(t)
    ensures t.sides.Get(d).rcvd == s.sides.Get(d).rcvd
  {
    ConcludeFrame(SetPc(s, Old, Done), d);
    t := Extend(s0, s, Compute(Old, Conclude));
  }

  lemma PriorWindsUp(s0: State, s: State, d: nat) returns (t: State)
    requires From(s0, s) && (s.prior.Drained? || TaskCleared(s.prior)) && d < 2 && NotSending(s)
    ensures From(s0, t) && t == s.(prior := Done, fast := t.fast, sides := t.sides) && NotSending(t)
    ensures t.sides.Get(d).rcvd == s.sides.Get(d).rcvd
  {
    t := s;
    if t.prior.Drained? {
      t := PutBack(s0, t, Old);
    } else if t.prior.Nulled? {
      t := Extend(s0, t, Compute(Old, Reset));
    }
    if t.prior.Final? { t := PriorConcludes(s0, t, d); }
  }

  /** A thread older still puts the probe hook back after line 635. */
  lemma SlowStart(s0: State, s: State) returns (t: State)
    requires From(s0, s) && s.cmd.Looking? && s.prior.Done?
    ensures From(s0, t) && t == s.(fast := false, cmd := Running, pc := Counting)
  {
    t := Extend(s0, s, LateReset);
    t := Extend(s0, t, Look);
  }

  lemma Finish(s0: State, s: State, d: nat) returns (t: State)
    requires From(s0, s) && Slow(s) && d < 2 && NotSending(s)
    ensures From(s0, t) && t.pc == Final
  {
    t := CountAll(s0, s, New, d);
    t := LeaveEmpty(s0, t, New);
    t := PutBack(s0, t, New);
  }

  /** A packet of direction d comes back undamaged. */
  lemma ComeBack(s0: State, s: State, d: nat) returns (t: State)
    requires From(s0, s) && s.fast && |s.fifo| < s.room && d < 2 && s.loop[d] > 0 && MIN_SIZE <= s.size <= MAX_SIZE
    ensures From(s0, t) && t == s.(loop := t.loop, fifo := t.fifo) && InFifo(t.fifo, d) == InFifo(s.fifo, d) + 1
  {
    var f: Packet := Tagged(Built(s.size, d), [0, 0, 0, 0]);
    OwnDirection(d, s.size, [0, 0, 0, 0]);
    InFifoAppend(s.fifo, f, d);
    t := Extend(s0, s, AtSide(d, Deliver(f)));
  }

  /** A run that starts slowly with a packet counted, or about to be. */
  lemma OneCounts(c: Setup, d: nat) returns (s: State)
    requires MIN_SIZE <= c.size <= MAX_SIZE && d < 2 && !c.prior.Created? && |c.fifo| < c.room
    requires c.loop[d] > 0 || (InFifo(c.fifo, d) > 0 && !c.prior.Draining?)
    ensures Reached(c, s) && Slow(s) && NotSending(s)
    ensures 0 < s.sides.Get(d).rcvd + InFifo(s.fifo, d) <= InFifo(c.fifo, d) + 1
  {
    var s0 := Init(c);
    StartOf(s0);
    s := PriorEnds(s0, s0, d);
    s := Extend(s0, s, SetFast);
    if c.loop[d] > 0 { s := ComeBack(s0, s, d); }
    s := SlowStart(s0, s);
  }

  lemma InFifoAtMost(fifo: seq<Packet>, d: nat)
    ensures InFifo(fifo, d) <= |fifo|
  {}

  /** Runs that start without the fast hook are sure to report everything as lost
      exactly when at line 614 no packet of the direction is in the loop, and none
      in the fifo but for an earlier thread that is draining it. */
  lemma SureToLoseAll(c: Setup, d: nat)
    requires MIN_SIZE <= c.size <= MAX_SIZE && d < 2 && !c.prior.Created?
    requires |c.fifo| < c.room < 0x1_0000_0000_0000_0000
    ensures AlwaysAllLost(c, d) <==> c.loop[d] == 0 && (InFifo(c.fifo, d) == 0 || c.prior.Draining?)
  {
    InFifoAtMost(c.fifo, d);
    if c.loop[d] == 0 && (InFifo(c.fifo, d) == 0 || c.prior.Draining?) {
      forall s, t | Reached(c, s) && Slow(s) && NotSending(s) && From(s, t) && t.pc == Final
        ensures AllLost(Step(t, Compute(New, Conclude)).sides.Get(d).st)
      {
        var acts :| Run(Init(c), acts) == s;
        NoneLeftRun(c, acts, d);
        OutcomeFixed(c, s, t, d);
      }
    } else {
      var s := OneCounts(c, d);
      StartOf(s);
      var t := Finish(s, s, d);
      OutcomeFixed(c, s, t, d);
    }
  }

  // ----- two such runs

  lemma CountsFirst(s: State, w: Who, d: nat, f: Packet)
    requires Pc(s, w).Counting? && s.fifo == [f] && d < 2 && Direction(f) == d && NotSending(s)
    requires s.sides.Get(d).st.rcv == 0
    ensures var t := Step(s, Compute(w, Count));
            t == s.(fifo := [], sides := t.sides) && NotSending(t) && t.sides.Get(d).st.rcv == 1
  {}

  /** The earlier thread, told to stop, puts the probe hook back and ends; then the
      run's own threads start. */
  lemma PriorStopped(s0: State, s: State, d: nat) returns (t: State)
    requires From(s0, s) && s.cmd.Looking? && s.prior.Counting? && s.fifo == [] && d < 2 && NotSending(s)
    ensures From(s0, t) && Slow(t) && NotSending(t) && t.fifo == []
    ensures t.sides.Get(d).st.rcv == s.sides.Get(d).st.rcv
  {
    t := LeaveEmpty(s0, s, Old);
    ConcludeFrame(SetPc(t, Old, Done).(fast := false), d);
    t := WindUp(s0, t, Old);
    t := Extend(s0, t, Look);
  }

  /** The earlier thread counts for the new run: the packet still in the loop comes
      back after line 614, while that thread is in its main loop. */
  lemma OverlapSpoils(size: nat, room: nat, d: nat, f: Packet)
    requires room > 0 && d < 2 && Direction(f) == d
    ensures exists s :: Reached(Setup(size, room, true, multiset{d}, [], Counting), s) &&
              Slow(s) && NotSending(s) && s.fifo == [] && s.sides.Get(d).st.rcv == 1
  {
    var c := Setup(size, room, true, multiset{d}, [], Counting);
    var s0 := Init(c);
    StartOf(s0);
    var s := Extend(s0, s0, AtSide(d, Deliver(f)));
    assert s == s0.(loop := s.loop, fifo := [f]);
    CountsFirst(s, Old, d, f);
    s := Extend(s0, s, Compute(Old, Count));
    s := Extend(s0, s, SetFast);
    s := PriorStopped(s0, s, d);
    assert Reached(c, s);
  }

  /** A packet left in the fifo is counted for the next run before it has sent any. */
  lemma LeftoverSpoils(size: nat, size2: nat, room: nat, d: nat, f: Packet)
    requires room > 0 && d < 2 && MIN_SIZE <= size <= MAX_SIZE && Direction(f) == d
    ensures exists s :: Reached(Clear(size, room), s) && s.pc == Done && CountsLeftover(After(s, size2), d)
  {
    LeftoverReachable(size, room, d, f);
    var s :| Reached(Clear(size, room), s) && s.pc == Done && s.fifo == [f] && s.loop == multiset{};
    CountLeftover(After(s, size2), d, f);
  }

  /** Some run from here receives a packet before its senders begin. */
  ghost predicate CountsLeftover(c: Setup, d: nat) {
    exists t :: Reached(c, t) && t.cmd.Running? && NotSending(t) && t.sides.Get(d).st.rcv == 1
  }

  lemma CountLeftover(c: Setup, d: nat, f: Packet)
    requires c.fifo == [f] && c.prior.Done? && d < 2 && Direction(f) == d
    ensures CountsLeftover(c, d)
  {
    var s0 := Init(c);
    StartOf(s0);
    var t := StartThreads(s0, s0);
    CountsFirst(t, New, d, f);
    t := Extend(s0, t, Compute(New, Count));
    assert Reached(c, t);
  }
}
