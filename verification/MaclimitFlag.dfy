/** Who may write the flag and the payload. With one packet hook at a time and
    uninterrupted ARP hooks every write belongs to the actor whose turn it is;
    a second split packet hook or one split ARP hook breaks that. */
module MaclimitFlag {
  import opened Maclimit
  import opened MaclimitMachine
  import opened MaclimitAtomic
  import MaclimitMailbox
  import MaclimitTight

  predicate Probing(flag: AddMode) {
    flag == ArpReplayCheck || flag == ArpReplayOk
  }

  /** A packet hook moves the flag off NO_ADD_TASK, an ARP hook from check to
      ok, and the thread does the rest. */
  predicate FlagOwned(s: State, a: Action, flag': AddMode) {
    || flag' == s.sh.flag
    || ((a.Hook? || a.Whole?) && s.sh.flag == NoAddTask && AddRequest(flag'))
    || ((a.Arp? || a.WholeArp?) && s.sh.flag == ArpReplayCheck && flag' == ArpReplayOk)
    || (a.Thread? && s.sh.flag != NoAddTask && (flag' == ArpReplayCheck || flag' == NoAddTask))
  }

  /** The step writes the flag only as its actor may, and the payload only from
      a packet hook, with the mailbox free and the thread not reading it. */
  predicate Owned(s: State, a: Action) {
    var s' := Step(s, a);
    && FlagOwned(s, a, s'.sh.flag)
    && (s'.sh.node != s.sh.node ==> (a.Hook? || a.Whole?) && s.sh.flag == NoAddTask && !Engaged(s.pc))
  }

  predicate HookCalm(sh: Shared, pc: HookPc) {
    match pc
    case Chosen(_, mode) => AddRequest(mode)
    case Posting(_, mode, _) => AddRequest(mode) && sh.flag == NoAddTask
    case _ => true
  }

  ghost predicate Calm(s: State) {
    && s.arps == [] && |s.hooks| <= 1
    && (forall i :: 0 <= i < |s.hooks| ==> HookCalm(s.sh, s.hooks[i]))
    && (Probing(s.sh.flag) ==> Engaged(s.pc) || s.pc.Clear?)
    && (Engaged(s.pc) ==> s.sh.flag != NoAddTask)
  }

  lemma PostKeeps(s: State, i: nat, p: Packet, lock: bool)
    requires Calm(s) && !s.gone && i < |s.hooks| && s.hooks[i].Posting?
    ensures Calm(HookStep(s, i, p, lock)) && Owned(s, Hook(i, p, lock))
  {
    var s' := HookStep(s, i, p, lock);
    assert s' == Step(s, Hook(i, p, lock));
    assert HookCalm(s.sh, s.hooks[i]);
    assert s'.arps == s.arps && s'.pc == s.pc;
    assert HookCalm(s'.sh, s'.hooks[i]);
  }

  lemma HookKeeps(s: State, i: nat, p: Packet, lock: bool)
    requires Calm(s) && !s.gone && i < |s.hooks|
    ensures Calm(HookStep(s, i, p, lock)) && Owned(s, Hook(i, p, lock))
  {
    if s.hooks[i].Posting? {
      PostKeeps(s, i, p, lock);
    } else {
      var s' := HookStep(s, i, p, lock);
      assert HookCalm(s.sh, s.hooks[i]);
      assert s'.arps == s.arps && s'.pc == s.pc && s'.sh == s.sh;
      assert HookCalm(s'.sh, s'.hooks[i]);
    }
  }

  lemma ThreadKeeps(s: State, ok: bool, ok2: bool)
    requires Calm(s) && !s.gone
    ensures Calm(ThreadStep(s, ok, ok2)) && Owned(s, Thread(ok, ok2))
  {
    var s' := ThreadStep(s, ok, ok2);
    assert s' == Step(s, Thread(ok, ok2));
    forall i | 0 <= i < |s'.hooks| ensures HookCalm(s'.sh, s'.hooks[i]) {
      assert HookCalm(s.sh, s.hooks[i]);
    }
  }

  lemma OtherKeeps(s: State, a: Action)
    requires Calm(s) && !s.gone && !a.Hook? && !a.Thread? && (a.Whole? ==> s.hooks == [])
    ensures Calm(Step(s, a)) && Owned(s, a)
  {
    var s' := Step(s, a);
    assert s'.arps == s.arps && s'.pc == s.pc && s'.hooks == s.hooks;
    forall i | 0 <= i < |s'.hooks| ensures HookCalm(s'.sh, s'.hooks[i]) {
      assert HookCalm(s.sh, s.hooks[i]);
    }
  }

  lemma StepKeeps(s: State, a: Action)
    requires Calm(s) && (a.Whole? ==> s.hooks == [])
    ensures Calm(Step(s, a)) && Owned(s, a)
  {
    if s.gone {
    } else if a.Hook? {
      if a.i < |s.hooks| { HookKeeps(s, a.i, a.p, a.lock); }
    } else if a.Thread? {
      ThreadKeeps(s, a.ok, a.ok2);
    } else {
      OtherKeeps(s, a);
    }
  }

  /** One split packet hook context, or any number of uninterrupted packet hooks. */
  predicate OneAtATime(n: nat, acts: seq<Action>) {
    n == 0 || (n == 1 && NoWhole(acts))
  }

  lemma {:induction false} RunKeeps(n: nat, merged: bool, acts: seq<Action>)
    requires OneAtATime(n, acts)
    ensures var s := Run(Init(n, 0, merged), acts); Calm(s) && |s.hooks| == n
    decreases |acts|
  {
    if acts != [] {
      RunKeeps(n, merged, acts[..|acts| - 1]);
      var s := Run(Init(n, 0, merged), acts[..|acts| - 1]);
      StepKeeps(s, acts[|acts| - 1]);
      SameHooks(s, acts[|acts| - 1]);
    }
  }

  lemma SameHooks(s: State, a: Action)
    ensures |Step(s, a).hooks| == |s.hooks|
  {}

  /** Every step of every such run writes only what its actor owns. */
  lemma EveryStepOwned(n: nat, merged: bool, acts: seq<Action>, a: Action)
    requires OneAtATime(n, acts + [a])
    ensures Owned(Run(Init(n, 0, merged), acts), a)
  {
    assert (acts + [a])[|acts|] == a;
    assert NoWhole(acts + [a]) ==> NoWhole(acts) by {
      assert forall k :: 0 <= k < |acts| ==> (acts + [a])[k] == acts[k];
    }
    RunKeeps(n, merged, acts);
    StepKeeps(Run(Init(n, 0, merged), acts), a);
  }

  lemma ChooseCheck(s0: State, s: State, q: Packet) returns (t: State)
    requires Reaches(s0, s) && !s.gone && |s.hooks| > 0 && s.hooks[0] == Idle
    requires Limited(s.sh, q) && |s.sh.list| >= s.sh.limit && !Listed(s.sh.list, q.terminal.mac)
    ensures Reaches(s0, t) && t == s.(hooks := s.hooks[0 := Chosen(q, AddCheck)])
  {
    var a := Hook(0, q, true);
    t := Extend(s0, s, a);
    t := Extend(s0, t, a);
    t := Extend(s0, t, a);
  }

  /** Context 0 posts a check for a terminal the full list does not hold. */
  lemma PostCheck(s0: State, s: State, mac: Mac, h: int) returns (t: State)
    requires Reaches(s0, s) && MaclimitTight.Quiet(s, h) && |s.hooks| > 0 && s.hooks[0] == Idle
    requires |s.sh.list| >= h && MaclimitTight.Below(s.sh.list, mac)
    ensures Reaches(s0, t) && MaclimitTight.Running(t, h) && !t.asleep && t.sh.flag == AddCheck
    ensures t.sh.list == s.sh.list && t.sh.arpCmpMac == s.sh.arpCmpMac && t.arps == s.arps && t.hooks == s.hooks
  {
    var q := MaclimitTight.From(mac);
    var a := Hook(0, q, true);
    t := ChooseCheck(s0, s, q);
    t := Extend(s0, t, a);
    t := WritePost(s0, t, 0, q, AddCheck);
    t := Extend(s0, t, a);
    t := Extend(s0, t, a);
  }

  /** The thread takes a check request and is about to set the comparison MAC. */
  lemma StartPass(s0: State, s: State, h: int) returns (t: State)
    requires Reaches(s0, s) && MaclimitTight.Running(s, h) && !s.asleep && s.sh.flag == AddCheck && s.sh.list != []
    ensures Reaches(s0, t) && t == s.(pc := SetCmp(0), sh := s.sh.(flag := ArpReplayCheck), h := t.h)
    ensures t.h.probe == ProbeLog(false, false, [])
  {
    var a := Thread(true, true);
    t := Extend(s0, s, a);
    t := Extend(s0, t, a);
    t := Extend(s0, t, a);
  }

  /** From the first entry's probe on: it answers twice, and its second answer
      is still to be marked when the pass is over. */
  lemma AnswersTwice(s0: State, s: State) returns (t: State)
    requires Reaches(s0, s) && !s.gone && s.pc == Probe(0, 0) && |s.sh.list| == 1 && !s.merged
    requires s.sh.flag == ArpReplayCheck && s.sh.arpCmpMac == s.sh.list[0].mac
    requires |s.arps| > 0 && s.arps[0] == ArpIdle
    ensures Reaches(s0, t) && !t.gone && t.sh.flag == NoAddTask && |t.arps| > 0 && t.arps[0].ArpMatched?
  {
    var mac := s.sh.arpCmpMac;
    t := Extend(s0, s, Arp(0, mac));
    t := Extend(s0, t, Arp(0, mac));
    t := Extend(s0, t, WholeArp(mac));
    assert t.pc == s.pc && t.sh == s.sh.(flag := ArpReplayOk) && t.arps == s.arps[0 := ArpMatched(mac)];
    t := JudgeAndClear(s0, t);
  }

  lemma JudgeAndClear(s0: State, s: State) returns (t: State)
    requires Reaches(s0, s) && !s.gone && s.pc == Probe(0, 0) && |s.sh.list| == 1
    requires s.sh.flag == ArpReplayOk
    ensures Reaches(s0, t) && !t.gone && t.sh.flag == NoAddTask && t.arps == s.arps
  {
    var a := Thread(true, true);
    t := Extend(s0, s, a);
    t := Extend(s0, t, a);
    t := Extend(s0, t, a);
    t := Extend(s0, t, a);
  }

  lemma LateMarkFrom(s0: State, s: State) returns (t: State)
    requires Reaches(s0, s) && !s.gone && s.pc == SetCmp(0) && |s.sh.list| == 1 && !s.merged
    requires s.sh.flag == ArpReplayCheck && |s.arps| > 0 && s.arps[0] == ArpIdle
    ensures Reaches(s0, t) && t.sh.flag == NoAddTask && Step(t, Arp(0, 0)).sh.flag == ArpReplayOk
  {
    t := Extend(s0, s, Thread(true, true));
    t := AnswersTwice(s0, t);
  }

  /** A split ARP hook can mark an entry alive after the mailbox was freed. */
  lemma LateMark(n: nat, m: nat) returns (s: State)
    requires n >= 1 && m >= 1
    ensures Reaches(Init(n, m, false), s) && !Owned(s, Arp(0, 0))
    ensures s.sh.flag == NoAddTask && Step(s, Arp(0, 0)).sh.flag == ArpReplayOk
  {
    var s0 := Init(n, m, false);
    s := MaclimitTight.Fill(n, m, 1, 1);
    s := PostCheck(s0, s, 1, 1);
    s := StartPass(s0, s, 1);
    s := LateMarkFrom(s0, s);
  }

  /** A second split packet hook can write the payload the thread is reading. */
  lemma LateWrite(n: nat, m: nat) returns (s: State)
    requires n >= 2
    ensures Reaches(Init(n, m, false), s)
    ensures !Owned(s, Hook(0, Packet(MaclimitMailbox.A, false, true), true))
  {
    s := MaclimitMailbox.TornHalfway(n, m);
    assert Step(s, Hook(0, Packet(MaclimitMailbox.A, false, true), true)).sh.node.dev == 1;
  }

  ghost predicate AlwaysOwned(n: nat, m: nat) {
    forall acts, a: Action :: NoWhole(acts) && !a.Whole? ==> Owned(Run(Init(n, m, false), acts), a)
  }

  lemma NotAlways(n: nat, m: nat, s: State, a: Action)
    requires Reaches(Init(n, m, false), s) && !a.Whole? && !Owned(s, a)
    ensures !AlwaysOwned(n, m)
  {
    var acts :| NoWhole(acts) && Run(Init(n, m, false), acts) == s;
  }

  /** Flag and payload are written in turns exactly when one packet hook runs at
      a time and no ARP hook is interrupted. */
  lemma OwnedExactly(n: nat, m: nat)
    requires n >= 1
    ensures AlwaysOwned(n, m) <==> n == 1 && m == 0
  {
    if n >= 2 {
      var s := LateWrite(n, m);
      NotAlways(n, m, s, Hook(0, Packet(MaclimitMailbox.A, false, true), true));
    } else if m >= 1 {
      var s := LateMark(n, m);
      NotAlways(n, m, s, Arp(0, 0));
    } else {
      forall acts, a: Action | NoWhole(acts) && !a.Whole? ensures Owned(Run(Init(n, m, false), acts), a) {
        EveryStepOwned(n, false, acts, a);
      }
    }
  }
}
