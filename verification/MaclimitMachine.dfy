/** The limiter as a concurrent system. Any number of packet hook contexts and
    ARP hook contexts, split at every access to shared memory, interleave with
    the one kernel thread, with configuration writes and with module removal.
    One action is one step of one of them and carries whatever the environment
    decides (packet contents, lock and allocation outcomes); an action that is
    not enabled changes nothing, so every interleaving is a list of actions. */
module MaclimitMachine {
  import opened Maclimit

  /** Where a split packet hook stands between two accesses. */
  datatype HookPc =
    | Idle
    | Entered(p: Packet)                          // filters passed, before the trylock
    | Counted(p: Packet, connected: nat)          // walked the list, lock released
    | Chosen(p: Packet, mode: AddMode)            // limit compared
    | Posting(p: Packet, mode: AddMode, k: nat)   // flag seen free, k payload fields written
    | Waking(mode: AddMode)                       // flag written, wake-up still to come

  datatype ArpPc =
    | ArpIdle
    | ArpSaw(mac: Mac)       // read ARP_REPLAY_CHECK, before the comparison
    | ArpMatched(mac: Mac)   // before the flag write
    | ArpWaking              // before the wake-up

  datatype ThreadPc =
    | Start                       // loop test and the switch
    | ImmAlloc                    // ADD_IMMEDIATE, before the allocation
    | ImmLink(node: Node)
    | Next(j: nat)                // ADD_CHECK, about to take entry j
    | SetCmp(j: nat)              // flag says check, comparison MAC not yet written
    | Probe(j: nat, i: nat)       // inner loop test after i probes
    | Wait(j: nat, i: nat)        // sleeping on the probe timer
    | Judge(j: nat)               // final look at the flag
    | ReplAlloc(j: nat)
    | ReplLink(j: nat, node: Node)
    | Clear                       // before the flag is set to NO_ADD_TASK
    | Gap                         // flag cleared, task state still running
    | Sched                       // task state set, in schedule()
    | Exited

  /** Since line 155 set the flag for the entry being probed: whether a frame of
      the entry's own marked it alive from line 156 on, and whether any other
      mark landed. Of the entries this pass has judged, in order: which had a mark. */
  datatype ProbeLog = ProbeLog(heard: bool, stray: bool, marks: seq<bool>)

  /** History kept for the statements: node accounting, completed posts, the
      post the thread works on, the post each list entry came from, all posts
      linked so far in order, and the probing pass. */
  datatype History = History(allocs: nat, freed: nat, leaked: nat,
                             posts: seq<Node>, cur: int, ids: seq<int>, linked: seq<int>,
                             probe: ProbeLog)

  /** `merged` asks for a variant of the thread in which clearing the flag and
      setting the task state are one step; the source has them apart. `high`
      is the largest limit configured so far. */
  datatype State = State(sh: Shared, pc: ThreadPc, asleep: bool, stopping: bool, gone: bool,
                         hooks: seq<HookPc>, arps: seq<ArpPc>, high: int, merged: bool, h: History)

  datatype Action =
    | Thread(ok: bool, ok2: bool)           // outcomes of the allocations it may make
    | Hook(i: nat, p: Packet, lock: bool)   // one step of packet hook context i
    | Whole(p: Packet, lock: bool)          // a packet hook that nothing interrupts
    | Arp(i: nat, mac: Mac)                 // one step of ARP hook context i
    | WholeArp(mac: Mac)                    // an ARP hook that nothing interrupts
    | SetLimit(limit: int)
    | SetEnable(enable: int)
    | Stop                                  // kthread_stop
    | Cleanup                               // unregister the hooks, free the list

  function Init(n: nat, m: nat, merged: bool): State {
    State(INITIAL, Start, false, false, false, seq(n, _ => Idle), seq(m, _ => ArpIdle), 1, merged,
          History(0, 0, 0, [], -1, [], [], ProbeLog(false, false, [])))
  }

  /** Payload field k of a post, in the order the source writes them. */
  function WriteField(node: Node, terminal: Node, k: nat): Node {
    if k == 0 then node.(srcip := terminal.srcip)
    else if k == 1 then node.(dstip := terminal.dstip)
    else if k == 2 then node.(dev := terminal.dev)
    else node.(mac := terminal.mac)
  }

  function HookStep(s: State, i: nat, p: Packet, lock: bool): State
    requires i < |s.hooks|
  {
    match s.hooks[i]
    case Posting(q, mode, k) =>
      if k < 4 then
        s.(hooks := s.hooks[i := Posting(q, mode, k + 1)],
           sh := s.sh.(node := WriteField(s.sh.node, q.terminal, k)))
      else
        s.(hooks := s.hooks[i := Waking(mode)], sh := s.sh.(flag := mode),
           h := s.h.(posts := s.h.posts + [q.terminal]))
    case Waking(_) => s.(hooks := s.hooks[i := Idle], asleep := false)
    case _ => s.(hooks := s.hooks[i := HookLocal(s.sh, s.hooks[i], p, lock)])
  }

  /** The hook steps that only read shared memory. */
  function HookLocal(sh: Shared, pc: HookPc, p: Packet, lock: bool): HookPc {
    match pc
    case Idle => if Limited(sh, p) then Entered(p) else Idle
    case Entered(q) =>
      if !lock || Listed(sh.list, q.terminal.mac) then Idle else Counted(q, |sh.list|)
    case Counted(q, n) => Chosen(q, Mode(n, sh.limit))
    case Chosen(q, mode) => if sh.flag == NoAddTask then Posting(q, mode, 0) else Idle
    case _ => pc
  }

  datatype Outcome = Goes | Returns(v: Verdict)

  /** What a hook returns once it has chosen its request. */
  function ModeVerdict(mode: AddMode): Verdict { if mode == AddImmediate then Accept else Drop }

  /** Whether the context's next step ends the hook, and with which verdict. */
  function HookReturns(sh: Shared, pc: HookPc, p: Packet, lock: bool): Outcome {
    match pc
    case Idle => if Limited(sh, p) then Goes else Returns(Accept)
    case Entered(q) => if !lock || Listed(sh.list, q.terminal.mac) then Returns(Accept) else Goes
    case Counted(_, _) => Goes
    case Chosen(_, mode) => if sh.flag == NoAddTask then Goes else Returns(ModeVerdict(mode))
    case Posting(_, _, _) => Goes
    case Waking(mode) => Returns(ModeVerdict(mode))
  }

  /** The same hook when nothing interrupts it. */
  function WholeStep(s: State, p: Packet, lock: bool): State {
    var sh := NetHook(s.sh, p, lock).0;
    if sh == s.sh then s
    else s.(sh := sh, asleep := false, h := s.h.(posts := s.h.posts + [p.terminal]))
  }

  /** The entry whose probing is under way, from line 156 on. */
  function Probed(pc: ThreadPc): int {
    match pc
    case Probe(j, _) => j
    case Wait(j, _) => j
    case Judge(j) => j
    case _ => -1
  }

  /** The history when a frame from mac marks the entry alive. */
  function Landed(s: State, mac: Mac): ProbeLog {
    var j := Probed(s.pc);
    if 0 <= j < |s.sh.list| && s.sh.list[j].mac == mac then s.h.probe.(heard := true)
    else if s.pc.SetCmp? || j >= 0 then s.h.probe.(stray := true)
    else s.h.probe
  }

  function ArpStep(s: State, i: nat, mac: Mac): State
    requires i < |s.arps|
  {
    match s.arps[i]
    case ArpIdle =>
      if s.sh.flag == ArpReplayCheck then s.(arps := s.arps[i := ArpSaw(mac)]) else s
    case ArpSaw(m) => s.(arps := s.arps[i := if s.sh.arpCmpMac == m then ArpMatched(m) else ArpIdle])
    case ArpMatched(m) =>
      s.(arps := s.arps[i := ArpWaking], sh := s.sh.(flag := ArpReplayOk), h := s.h.(probe := Landed(s, m)))
    case ArpWaking => s.(arps := s.arps[i := ArpIdle], asleep := false)
  }

  /** The same hook when nothing interrupts it. */
  function WholeArpStep(s: State, mac: Mac): State {
    var sh := ArpIn(s.sh, mac);
    if sh == s.sh then s else s.(sh := sh, asleep := false, h := s.h.(probe := Landed(s, mac)))
  }

  /** The control flow of `limit_check_func`. */
  function NextPc(s: State, ok: bool): ThreadPc {
    match s.pc
    case Start =>
      if s.stopping then Exited
      else if s.sh.flag == AddImmediate then ImmAlloc
      else if s.sh.flag == AddCheck then Next(0)
      else Clear
    case ImmAlloc => if ok then ImmLink(s.sh.node) else Clear
    case ImmLink(_) => Clear
    case Next(j) => if j < |s.sh.list| then SetCmp(j) else Clear
    case SetCmp(j) => Probe(j, 0)
    case Probe(j, i) =>
      if i < CHECK_ARP_PACKET_NUM && s.sh.flag == ArpReplayCheck then Wait(j, i) else Judge(j)
    case Wait(j, i) => Probe(j, i + 1)
    case Judge(j) => if s.sh.flag == ArpReplayCheck then ReplAlloc(j) else Next(j + 1)
    case ReplAlloc(j) => if ok then ReplLink(j, s.sh.node) else Clear
    case ReplLink(_, _) => Clear
    case Clear => if s.merged then Sched else Gap
    case Gap => Sched
    case Sched => if s.asleep then Sched else Start
    case Exited => Exited
  }

  /** What the thread's step writes to shared memory. */
  function ThreadWrite(sh: Shared, pc: ThreadPc): Shared {
    match pc
    case ImmLink(node) => sh.(list := [node] + sh.list)
    case Next(j) => if j < |sh.list| then sh.(flag := ArpReplayCheck) else sh
    case SetCmp(j) => if j < |sh.list| then sh.(arpCmpMac := sh.list[j].mac) else sh
    case ReplLink(j, node) => if j < |sh.list| then sh.(list := sh.list[j := node]) else sh
    case Clear => sh.(flag := NoAddTask)
    case _ => sh
  }

  /** History of the thread's step. `ok2`: the allocation of line 180, whose
      node is never linked, succeeded. */
  function ThreadHistory(h: History, pc: ThreadPc, ok: bool, ok2: bool): History {
    match pc
    case Start => h.(cur := |h.posts| - 1, probe := h.probe.(marks := []))
    case ImmAlloc => if ok then h.(allocs := h.allocs + 1) else h
    case Next(_) => h.(probe := h.probe.(heard := false, stray := false))
    case Judge(_) => h.(probe := h.probe.(marks := h.probe.marks + [h.probe.heard || h.probe.stray]))
    case ReplAlloc(_) => if ok then h.(allocs := h.allocs + 1) else h
    case ImmLink(_) => h.(ids := [h.cur] + h.ids, linked := h.linked + [h.cur])
    case ReplLink(j, _) =>
      var extra := if ok2 then 1 else 0;
      h.(allocs := h.allocs + extra, leaked := h.leaked + extra, freed := h.freed + 1,
         ids := if j < |h.ids| then h.ids[j := h.cur] else h.ids, linked := h.linked + [h.cur])
    case _ => h
  }

  predicate FallsAsleep(s: State) {
    s.pc.Gap? || (s.pc.Clear? && s.merged)
  }

  function ThreadStep(s: State, ok: bool, ok2: bool): State {
    s.(pc := NextPc(s, ok), sh := ThreadWrite(s.sh, s.pc), asleep := s.asleep || FallsAsleep(s),
       h := ThreadHistory(s.h, s.pc, ok, ok2))
  }

  function Max(a: int, b: int): int { if a < b then b else a }

  predicate HooksIdle(s: State) {
    (forall i :: 0 <= i < |s.hooks| ==> s.hooks[i].Idle?) &&
    (forall i :: 0 <= i < |s.arps| ==> s.arps[i].ArpIdle?)
  }

  function Step(s: State, a: Action): State {
    if s.gone then s else
    match a
    case Thread(ok, ok2) => ThreadStep(s, ok, ok2)
    case Hook(i, p, lock) => if i < |s.hooks| then HookStep(s, i, p, lock) else s
    case Whole(p, lock) => WholeStep(s, p, lock)
    case Arp(i, mac) => if i < |s.arps| then ArpStep(s, i, mac) else s
    case WholeArp(mac) => WholeArpStep(s, mac)
    case SetLimit(limit) => s.(sh := s.sh.(limit := limit), high := Max(s.high, limit))
    case SetEnable(enable) => s.(sh := s.sh.(enable := enable))
    case Stop => s.(stopping := true, asleep := false)
    case Cleanup =>
      if s.pc.Exited? && HooksIdle(s) then
        s.(gone := true, sh := s.sh.(list := []), h := s.h.(freed := s.h.freed + |s.sh.list|, ids := []))
      else s
  }

  function Run(s: State, acts: seq<Action>): State
    decreases |acts|
  {
    if acts == [] then s else Step(Run(s, acts[..|acts| - 1]), acts[|acts| - 1])
  }

  lemma RunSnoc(s: State, acts: seq<Action>, a: Action)
    ensures Run(s, acts + [a]) == Step(Run(s, acts), a)
  {
    assert (acts + [a])[..|acts|] == acts;
  }

  lemma {:induction false} RunAppend(s: State, a: seq<Action>, b: seq<Action>)
    ensures Run(s, a + b) == Run(Run(s, a), b)
    decreases |b|
  {
    if b == [] {
      assert a + b == a;
    } else {
      var c := b[..|b| - 1];
      assert (a + b)[..|a + b| - 1] == a + c;
      RunAppend(s, a, c);
    }
  }

  predicate NoWhole(acts: seq<Action>) {
    forall k :: 0 <= k < |acts| ==> !acts[k].Whole?
  }

  /** Some interleaving of split hooks leads from s to t. */
  ghost predicate Reaches(s: State, t: State) {
    exists acts :: NoWhole(acts) && Run(s, acts) == t
  }

  lemma ReachesSelf(s: State)
    ensures Reaches(s, s)
  {
    assert NoWhole([]) && Run(s, []) == s;
  }

  lemma Extend(s: State, t: State, a: Action) returns (u: State)
    requires Reaches(s, t) && !a.Whole?
    ensures u == Step(t, a) && Reaches(s, u)
  {
    u := Step(t, a);
    var acts :| NoWhole(acts) && Run(s, acts) == t;
    RunSnoc(s, acts, a);
    assert NoWhole(acts + [a]);
  }

  /** A context that saw the flag free writes its whole post. */
  lemma WritePost(s0: State, s: State, i: nat, q: Packet, mode: AddMode) returns (t: State)
    requires Reaches(s0, s) && !s.gone && i < |s.hooks| && s.hooks[i] == Posting(q, mode, 0)
    ensures Reaches(s0, t)
    ensures t == s.(hooks := s.hooks[i := Posting(q, mode, 4)], sh := s.sh.(node := q.terminal))
  {
    var a := Hook(i, q, true);
    t := Extend(s0, s, a);
    t := Extend(s0, t, a);
    t := Extend(s0, t, a);
    t := Extend(s0, t, a);
    assert t.sh.node == q.terminal;
    assert t.hooks == s.hooks[i := Posting(q, mode, 4)];
  }

  /** An idle context lets a new terminal's packet as far as its snapshot. */
  lemma TakeSnapshot(s0: State, s: State, i: nat, q: Packet) returns (t: State)
    requires Reaches(s0, s) && !s.gone && i < |s.hooks| && s.hooks[i] == Idle
    requires Limited(s.sh, q) && |s.sh.list| < s.sh.limit && !Listed(s.sh.list, q.terminal.mac)
    ensures Reaches(s0, t) && t == s.(hooks := s.hooks[i := Chosen(q, AddImmediate)])
  {
    t := Extend(s0, s, Hook(i, q, true));
    t := Extend(s0, t, Hook(i, q, true));
    t := Extend(s0, t, Hook(i, q, true));
  }

  /** With nothing requested the thread goes to sleep. */
  lemma FallAsleep(s0: State, s: State) returns (t: State)
    requires Reaches(s0, s) && s.pc == Start && s.sh.flag == NoAddTask
    requires !s.gone && !s.stopping && !s.merged
    ensures Reaches(s0, t) && t == s.(pc := Sched, asleep := true, h := t.h)
  {
    t := Extend(s0, s, Thread(true, true));
    t := Extend(s0, t, Thread(true, true));
    t := Extend(s0, t, Thread(true, true));
  }
}
