/** Accounting of allocated list nodes over every run, and what removal leaks. */
module MaclimitNodes {
  import opened Maclimit
  import opened MaclimitMachine

  function InHand(pc: ThreadPc): nat {
    if pc.ImmLink? || pc.ReplLink? then 1 else 0
  }

  function Entry(pc: ThreadPc): int {
    match pc
    case SetCmp(j) => j
    case Probe(j, _) => j
    case Wait(j, _) => j
    case Judge(j) => j
    case ReplAlloc(j) => j
    case ReplLink(j, _) => j
    case _ => -1
  }

  predicate Inv(s: State) {
    && s.h.allocs == |s.sh.list| + InHand(s.pc) + s.h.freed + s.h.leaked
    && |s.h.ids| == |s.sh.list|
    && Entry(s.pc) < |s.sh.list|
    && (s.gone ==> s.sh.list == [] && s.pc.Exited?)
  }

  /** A packet hook writes the mailbox and nothing else of the module's state. */
  lemma HookFrame(s: State, i: nat, p: Packet, lock: bool)
    requires i < |s.hooks|
    ensures var s' := HookStep(s, i, p, lock);
            s'.sh == s.sh.(flag := s'.sh.flag, node := s'.sh.node) && s'.pc == s.pc &&
            s'.h == s.h.(posts := s'.h.posts) && s'.gone == s.gone
  {
    match s.hooks[i]
    case Posting(_, _, k) =>
    case Waking(_) =>
    case _ =>
  }

  /** An ARP hook writes the flag. */
  lemma ArpFrame(s: State, a: Action)
    requires a.Arp? || a.WholeArp?
    ensures var s' := Step(s, a);
            s'.sh == s.sh.(flag := s'.sh.flag) && s'.pc == s.pc && s'.gone == s.gone &&
            s'.h == s.h.(probe := s'.h.probe)
  {
    if a.Arp? && a.i < |s.arps| {
      var s' := ArpStep(s, a.i, a.mac);
      assert s'.h == s.h.(probe := s'.h.probe) && s'.pc == s.pc;
    }
  }

  lemma ThreadKeeps(s: State, ok: bool, ok2: bool)
    requires Inv(s) && !s.gone
    ensures Inv(ThreadStep(s, ok, ok2))
  {}

  lemma StepKeeps(s: State, a: Action)
    requires Inv(s)
    ensures Inv(Step(s, a))
  {
    if a.Hook? && a.i < |s.hooks| && !s.gone {
      HookFrame(s, a.i, a.p, a.lock);
    } else if a.Arp? || a.WholeArp? {
      ArpFrame(s, a);
    } else if a.Whole? {
      assert WholeStep(s, a.p, a.lock).sh.list == s.sh.list;
    } else if a.Thread? && !s.gone {
      ThreadKeeps(s, a.ok, a.ok2);
    }
  }

  lemma {:induction false} RunKeeps(n: nat, m: nat, merged: bool, acts: seq<Action>)
    ensures Inv(Run(Init(n, m, merged), acts))
    decreases |acts|
  {
    if acts != [] {
      RunKeeps(n, m, merged, acts[..|acts| - 1]);
      StepKeeps(Run(Init(n, m, merged), acts[..|acts| - 1]), acts[|acts| - 1]);
    }
  }

  /** Every node allocated is in the list, in the thread's hand, freed, or one
      of the extra ones of a replacement; after removal only the extra ones
      are not freed. */
  lemma NodesConserved(n: nat, m: nat, merged: bool, acts: seq<Action>)
    ensures var s := Run(Init(n, m, merged), acts);
            && s.h.allocs == |s.sh.list| + InHand(s.pc) + s.h.freed + s.h.leaked
            && (s.gone ==> s.h.allocs == s.h.freed + s.h.leaked)
  {
    RunKeeps(n, m, merged, acts);
  }

  /** Until removal the list grows only by the link step of ADD_IMMEDIATE, one
      node at the front, and never shrinks; a replacement changes one entry. */
  lemma ListChanges(n: nat, m: nat, merged: bool, acts: seq<Action>, a: Action)
    ensures var s := Run(Init(n, m, merged), acts);
            var list' := Step(s, a).sh.list;
            || list' == s.sh.list
            || (s.pc.ImmLink? && list' == [s.pc.node] + s.sh.list)
            || (s.pc.ReplLink? && s.pc.j < |s.sh.list| && list' == s.sh.list[s.pc.j := s.pc.node])
            || Step(s, a).gone
  {
    RunKeeps(n, m, merged, acts);
    var s := Run(Init(n, m, merged), acts);
    if a.Hook? && a.i < |s.hooks| && !s.gone {
      HookFrame(s, a.i, a.p, a.lock);
    } else if a.Arp? || a.WholeArp? {
      ArpFrame(s, a);
    }
  }
}
