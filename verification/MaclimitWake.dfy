/** Whether a posted request can be slept through. The thread clears the flag
    and sets its task state in two steps; a wake-up that falls between them is
    lost. */
module MaclimitWake {
  import opened Maclimit
  import opened MaclimitMachine

  ghost predicate WakerPending(s: State) {
    (exists i :: 0 <= i < |s.hooks| && s.hooks[i].Waking?) ||
    (exists i :: 0 <= i < |s.arps| && s.arps[i] == ArpWaking)
  }

  /** The thread will test the flag before it can sleep. */
  predicate WillLook(s: State) {
    !s.pc.Gap? && !(s.pc.Sched? && s.asleep)
  }

  /** A posted request is going to be looked at. */
  ghost predicate Covered(s: State) {
    AddRequest(s.sh.flag) ==> WillLook(s) || WakerPending(s)
  }

  /** No hook is about to wake the thread, packet context h and ARP context r aside. */
  predicate NoOtherWaker(s: State, h: int, r: int) {
    && (forall k :: 0 <= k < |s.hooks| && k != h ==> !s.hooks[k].Waking?)
    && (forall k :: 0 <= k < |s.arps| && k != r ==> s.arps[k] != ArpWaking)
  }

  /** The step delivers, into the gap, the only wake-up due for a request. */
  predicate LostWakeup(s: State, a: Action) {
    s.pc.Gap? && !s.gone && match a
    case Hook(i, _, _) => i < |s.hooks| && s.hooks[i].Waking? && AddRequest(s.sh.flag) && NoOtherWaker(s, i, -1)
    case Arp(i, _) => i < |s.arps| && s.arps[i] == ArpWaking && AddRequest(s.sh.flag) && NoOtherWaker(s, -1, i)
    case Whole(p, lock) => NetHook(s.sh, p, lock).0 != s.sh && NoOtherWaker(s, -1, -1)
    case _ => false
  }

  lemma StillPending(s: State, s': State)
    requires WakerPending(s) && s'.hooks == s.hooks && s'.arps == s.arps
    ensures WakerPending(s')
  {}

  lemma HookWakes(s: State, i: nat, p: Packet, lock: bool)
    requires Covered(s) && !s.gone && i < |s.hooks| && s.hooks[i].Waking?
    ensures Covered(HookStep(s, i, p, lock)) <==> !LostWakeup(s, Hook(i, p, lock))
  {
    var s' := HookStep(s, i, p, lock);
    assert s'.sh == s.sh && s'.pc == s.pc && !s'.asleep && s'.arps == s.arps && s'.hooks == s.hooks[i := Idle];
    if k :| 0 <= k < |s.hooks| && k != i && s.hooks[k].Waking? {
      assert s'.hooks[k].Waking?;
    }
  }

  lemma HookCovered(s: State, i: nat, p: Packet, lock: bool)
    requires Covered(s) && !s.gone && i < |s.hooks| && !s.hooks[i].Waking?
    ensures Covered(HookStep(s, i, p, lock))
  {
    var s' := HookStep(s, i, p, lock);
    assert s'.asleep == s.asleep && s'.pc == s.pc && s'.arps == s.arps;
    if WakerPending(s) {
      if j :| 0 <= j < |s.hooks| && s.hooks[j].Waking? {
        assert s'.hooks[j].Waking?;
      }
      assert WakerPending(s');
    }
    if s.hooks[i].Posting? && s.hooks[i].k >= 4 {
      assert s'.hooks[i].Waking?;
    } else {
      assert s'.sh.flag == s.sh.flag;
    }
  }

  lemma ArpWakes(s: State, i: nat, mac: Mac)
    requires Covered(s) && !s.gone && i < |s.arps| && s.arps[i] == ArpWaking
    ensures Covered(ArpStep(s, i, mac)) <==> !LostWakeup(s, Arp(i, mac))
  {
    var s' := ArpStep(s, i, mac);
    assert s'.sh == s.sh && s'.pc == s.pc && !s'.asleep && s'.hooks == s.hooks && s'.arps == s.arps[i := ArpIdle];
    if k :| 0 <= k < |s.arps| && k != i && s.arps[k] == ArpWaking {
      assert s'.arps[k] == ArpWaking;
    }
  }

  lemma ArpCovered(s: State, i: nat, mac: Mac)
    requires Covered(s) && !s.gone && i < |s.arps| && s.arps[i] != ArpWaking
    ensures Covered(ArpStep(s, i, mac))
  {
    var s' := ArpStep(s, i, mac);
    if s.arps[i].ArpMatched? {
      assert !AddRequest(s'.sh.flag);
    } else {
      assert s'.asleep == s.asleep && s'.pc == s.pc && s'.hooks == s.hooks && s'.sh == s.sh;
      if WakerPending(s) {
        if j :| 0 <= j < |s.arps| && s.arps[j] == ArpWaking {
          assert s'.arps[j] == ArpWaking;
        }
        assert WakerPending(s');
      }
    }
  }

  lemma OtherCovered(s: State, a: Action)
    requires Covered(s) && !s.gone && !a.Hook? && !a.Arp?
    ensures Covered(Step(s, a)) <==> !LostWakeup(s, a)
  {
    var s' := Step(s, a);
    assert s'.hooks == s.hooks && s'.arps == s.arps;
    if WakerPending(s) { StillPending(s, s'); }
  }

  /** A step keeps every posted request covered exactly when it does not deliver
      the only wake-up due into the gap. */
  lemma CoveredExactly(s: State, a: Action)
    requires Covered(s)
    ensures Covered(Step(s, a)) <==> !LostWakeup(s, a)
  {
    if s.gone {
    } else if a.Hook? {
      if a.i < |s.hooks| {
        if s.hooks[a.i].Waking? { HookWakes(s, a.i, a.p, a.lock); } else { HookCovered(s, a.i, a.p, a.lock); }
      }
    } else if a.Arp? {
      if a.i < |s.arps| {
        if s.arps[a.i] == ArpWaking { ArpWakes(s, a.i, a.mac); } else { ArpCovered(s, a.i, a.mac); }
      }
    } else {
      OtherCovered(s, a);
    }
  }

  /** In every state of the run. */
  ghost predicate AlwaysCovered(s: State, acts: seq<Action>)
    decreases |acts|
  {
    Covered(Run(s, acts)) && (acts != [] ==> AlwaysCovered(s, acts[..|acts| - 1]))
  }

  /** Some step of the run does. */
  predicate LosesWakeup(s: State, acts: seq<Action>)
    decreases |acts|
  {
    acts != [] && (LostWakeup(Run(s, acts[..|acts| - 1]), acts[|acts| - 1]) || LosesWakeup(s, acts[..|acts| - 1]))
  }

  /** So a run comes to sleep on a request exactly when one of its steps loses a
      wake-up. */
  lemma {:induction false} CoveredThroughout(s: State, acts: seq<Action>)
    requires Covered(s)
    ensures AlwaysCovered(s, acts) <==> !LosesWakeup(s, acts)
    decreases |acts|
  {
    if acts != [] {
      var before, a := acts[..|acts| - 1], acts[|acts| - 1];
      CoveredThroughout(s, before);
      if Covered(Run(s, before)) { CoveredExactly(Run(s, before), a); }
    }
  }

  lemma NoGap(s: State, a: Action)
    requires s.merged && !s.pc.Gap?
    ensures Step(s, a).merged && !Step(s, a).pc.Gap?
  {
    if a.Hook? && a.i < |s.hooks| && !s.gone {
      assert HookStep(s, a.i, a.p, a.lock).pc == s.pc;
    }
  }

  /** Were clearing the flag and setting the task state one step, no run would
      ever sleep through a request. */
  lemma {:induction false} NeverSleptThrough(n: nat, m: nat, acts: seq<Action>)
    ensures var s := Run(Init(n, m, true), acts); Covered(s) && s.merged && !s.pc.Gap?
    decreases |acts|
  {
    if acts != [] {
      NeverSleptThrough(n, m, acts[..|acts| - 1]);
      var s := Run(Init(n, m, true), acts[..|acts| - 1]);
      CoveredExactly(s, acts[|acts| - 1]);
      NoGap(s, acts[|acts| - 1]);
    }
  }

  /** No ARP hook under way can still reach the thread. */
  predicate ArpsSpent(s: State) {
    forall i :: 0 <= i < |s.arps| ==>
      s.arps[i].ArpIdle? || (s.arps[i].ArpSaw? && s.arps[i].mac != s.sh.arpCmpMac)
  }

  predicate NonePosting(s: State) {
    forall i :: 0 <= i < |s.hooks| ==> !s.hooks[i].Posting?
  }

  /** The thread sleeps on a posted request and nobody is about to wake it. */
  predicate Stuck(s: State) {
    && s.pc.Sched? && s.asleep && AddRequest(s.sh.flag)
    && NonePosting(s) && ArpsSpent(s)
    && forall i :: 0 <= i < |s.hooks| ==> !s.hooks[i].Waking?
  }

  lemma StuckStep(s: State, a: Action)
    requires Stuck(s) && !a.Stop?
    ensures Stuck(Step(s, a)) && Step(s, a).sh.list == s.sh.list && Step(s, a).sh.flag == s.sh.flag
  {
    if a.Hook? && a.i < |s.hooks| && !s.gone {
      var pc' := HookLocal(s.sh, s.hooks[a.i], a.p, a.lock);
      assert Step(s, a) == s.(hooks := s.hooks[a.i := pc']);
    }
  }

  predicate NoStop(acts: seq<Action>) {
    forall k :: 0 <= k < |acts| ==> !acts[k].Stop?
  }

  /** No packet, ARP frame or reconfiguration ever gets the limiter going again:
      the list stays as it is and the request stays unserved. */
  lemma {:induction false} StuckForever(s: State, acts: seq<Action>)
    requires Stuck(s) && NoStop(acts)
    ensures Stuck(Run(s, acts)) && Run(s, acts).sh.list == s.sh.list && Run(s, acts).sh.flag == s.sh.flag
    decreases |acts|
  {
    if acts != [] {
      StuckForever(s, acts[..|acts| - 1]);
      StuckStep(Run(s, acts[..|acts| - 1]), acts[|acts| - 1]);
    }
  }

  /** Whatever packets, frames and reconfigurations come, the thread sleeps. */
  ghost predicate SleepsForever(s: State) {
    forall acts :: NoStop(acts) ==> Run(s, acts).pc.Sched? && Run(s, acts).asleep
  }

  ghost predicate CanWake(s: State) {
    exists acts :: NoStop(acts) && !Run(s, acts).asleep
  }

  lemma WakesNow(s: State)
    requires !s.asleep
    ensures CanWake(s)
  {
    assert NoStop([]) && Run(s, []) == s;
  }

  lemma WakesLater(s: State, a: Action)
    requires !a.Stop? && CanWake(Step(s, a))
    ensures CanWake(s)
  {
    var acts :| NoStop(acts) && !Run(Step(s, a), acts).asleep;
    RunAppend(s, [a], acts);
    assert [a][..0] == [] && Run(s, [a]) == Step(s, a);
    assert NoStop([a] + acts);
  }

  lemma {:induction false} HookCanWake(s: State, i: nat, k: nat)
    requires !s.gone && i < |s.hooks| && k <= 5
    requires if k == 5 then s.hooks[i].Waking? else s.hooks[i].Posting? && s.hooks[i].k >= k
    ensures CanWake(s)
    decreases 5 - k
  {
    var a := Hook(i, Packet(ZERO_NODE, false, true), true);
    var t := Step(s, a);
    if s.hooks[i].Waking? {
      WakesNow(t);
    } else if s.hooks[i].k >= 4 {
      assert t.hooks[i].Waking?;
      HookCanWake(t, i, 5);
    } else {
      assert t.hooks[i].Posting? && t.hooks[i].k == s.hooks[i].k + 1;
      HookCanWake(t, i, k + 1);
    }
    WakesLater(s, a);
  }

  /** ArpSaw with the compared MAC, ArpMatched, ArpWaking: 2, 1 and 0 steps before the last. */
  lemma {:induction false} ArpCanWake(s: State, i: nat, k: nat)
    requires !s.gone && i < |s.arps|
    requires match s.arps[i]
      case ArpIdle => false
      case ArpSaw(mac) => mac == s.sh.arpCmpMac && k >= 2
      case ArpMatched(_) => k >= 1
      case ArpWaking => true
    ensures CanWake(s)
    decreases k
  {
    var a := Arp(i, 0);
    var t := Step(s, a);
    if s.arps[i] == ArpWaking {
      WakesNow(t);
    } else {
      assert t.sh.arpCmpMac == s.sh.arpCmpMac && |t.arps| == |s.arps| && !t.gone;
      ArpCanWake(t, i, k - 1);
    }
    WakesLater(s, a);
  }

  /** A thread asleep on a request stays asleep whatever comes, short of removal,
      exactly when no hook is on its way to it. */
  lemma StuckExactly(s: State)
    requires !s.gone && AddRequest(s.sh.flag)
    ensures SleepsForever(s) <==> Stuck(s)
  {
    if Stuck(s) {
      forall acts | NoStop(acts) ensures Run(s, acts).pc.Sched? && Run(s, acts).asleep {
        StuckForever(s, acts);
      }
    } else if SleepsForever(s) {
      assert NoStop([]) && Run(s, []) == s;
      SomeoneComing(s);
    }
  }

  lemma SomeoneComing(s: State)
    requires !s.gone && AddRequest(s.sh.flag) && s.pc.Sched? && s.asleep && !Stuck(s)
    ensures CanWake(s)
  {
    if i :| 0 <= i < |s.hooks| && s.hooks[i].Posting? {
      HookCanWake(s, i, 0);
    } else if i :| 0 <= i < |s.hooks| && s.hooks[i].Waking? {
      HookCanWake(s, i, 5);
    } else {
      var i :| 0 <= i < |s.arps| && !s.arps[i].ArpIdle? && (s.arps[i].ArpSaw? ==> s.arps[i].mac == s.sh.arpCmpMac);
      ArpCanWake(s, i, 2);
    }
  }

  /** After a lost wake-up the thread's next step puts it to sleep for good exactly
      when no packet hook is posting and no ARP hook is under way for the compared
      MAC. */
  lemma LostForGood(s: State, a: Action, ok: bool, ok2: bool)
    requires Covered(s) && LostWakeup(s, a)
    ensures var t := Step(s, a); SleepsForever(Step(t, Thread(ok, ok2))) <==> NonePosting(t) && ArpsSpent(t)
  {
    var t := Step(s, a);
    CoveredExactly(s, a);
    assert t.pc.Gap? && !t.gone && AddRequest(t.sh.flag) && !WakerPending(t);
    var u := Step(t, Thread(ok, ok2));
    assert u.hooks == t.hooks && u.arps == t.arps && u.sh == t.sh && u.pc == Sched && u.asleep && !u.gone;
    StuckExactly(u);
  }

  // ----- removal

  /** The stop request was not seen and the thread sleeps or is going to. */
  predicate StopMissed(s: State) {
    s.stopping && !s.gone && !s.pc.Start? && !s.pc.Exited? && (s.pc.Sched? ==> s.asleep)
  }

  /** The action wakes the sleeping thread. */
  predicate Wakes(s: State, a: Action) {
    s.pc.Sched? && match a
    case Hook(i, _, _) => i < |s.hooks| && s.hooks[i].Waking?
    case Arp(i, _) => i < |s.arps| && s.arps[i] == ArpWaking
    case Whole(p, lock) => NetHook(s.sh, p, lock).0 != s.sh
    case WholeArp(mac) => ArpIn(s.sh, mac) != s.sh
    case Stop => true
    case _ => false
  }

  lemma MissedStep(s: State, a: Action)
    requires StopMissed(s)
    ensures StopMissed(Step(s, a)) <==> !Wakes(s, a)
  {
    if a.Hook? && a.i < |s.hooks| {
      var s' := HookStep(s, a.i, a.p, a.lock);
      assert s'.pc == s.pc && s'.stopping == s.stopping && s'.gone == s.gone;
    } else if a.Arp? && a.i < |s.arps| {
      var s' := ArpStep(s, a.i, a.mac);
      assert s'.pc == s.pc && s'.stopping == s.stopping && s'.gone == s.gone;
    }
  }

  ghost predicate NoneWakes(s: State, acts: seq<Action>) {
    forall k :: 0 <= k < |acts| ==> !Wakes(Run(s, acts[..k]), acts[k])
  }

  /** A missed stop stays missed until something else wakes the thread. */
  lemma {:induction false} MissedUntilWoken(s: State, acts: seq<Action>)
    requires StopMissed(s) && NoneWakes(s, acts)
    ensures StopMissed(Run(s, acts))
    decreases |acts|
  {
    if acts != [] {
      var before := acts[..|acts| - 1];
      assert forall k :: 0 <= k < |before| ==> acts[..k] == before[..k] && acts[k] == before[k];
      MissedUntilWoken(s, before);
      MissedStep(Run(s, before), acts[|acts| - 1]);
    }
  }

  predicate OnlyThread(acts: seq<Action>) {
    forall k :: 0 <= k < |acts| ==> acts[k].Thread?
  }

  /** The thread ends by itself, so kthread_stop returns. */
  ghost predicate Ends(s: State) {
    exists acts :: OnlyThread(acts) && Run(s, acts).pc.Exited?
  }

  lemma LooksAndEnds(s: State)
    requires s.stopping && !s.gone && !StopMissed(s)
    ensures Ends(s)
  {
    var a := Thread(true, true);
    var one, two := [a], [a, a];
    assert one[..0] == [] && two[..1] == one;
    assert Run(s, []) == s && Run(s, one) == Step(s, a) && Run(s, two) == Step(Step(s, a), a);
    if s.pc.Exited? {
      assert OnlyThread([]) && Run(s, []).pc.Exited?;
    } else if s.pc.Start? {
      assert OnlyThread(one) && Run(s, one).pc.Exited?;
    } else {
      assert OnlyThread(two) && Run(s, two).pc.Exited?;
    }
  }

  lemma {:induction false} NeverWokenByItself(s: State, acts: seq<Action>)
    requires StopMissed(s) && OnlyThread(acts)
    ensures StopMissed(Run(s, acts))
    decreases |acts|
  {
    if acts != [] {
      NeverWokenByItself(s, acts[..|acts| - 1]);
      MissedStep(Run(s, acts[..|acts| - 1]), acts[|acts| - 1]);
    }
  }

  /** The wake-up of kthread_stop comes once, with the request: removal completes
      without outside help exactly when it finds the thread in schedule() or at
      its loop test. Anywhere else in a turn the thread goes to sleep after it. */
  lemma StopCompletes(s: State)
    requires !s.gone
    ensures Ends(Step(s, Stop)) <==> s.pc.Sched? || s.pc.Start? || s.pc.Exited?
  {
    var t := Step(s, Stop);
    if StopMissed(t) {
      if Ends(t) {
        var acts :| OnlyThread(acts) && Run(t, acts).pc.Exited?;
        NeverWokenByItself(t, acts);
      }
    } else {
      LooksAndEnds(t);
    }
  }

  const Q := Packet(ZERO_NODE, false, true)

  /** Context 0 has seen the flag free while the thread is in the gap. */
  lemma HookInGap(n: nat, m: nat) returns (s: State)
    requires n >= 1
    ensures Reaches(Init(n, m, false), s) && s.pc == Gap && !s.gone && !s.merged
    ensures s.hooks == seq(n, _ => Idle)[0 := Posting(Q, AddImmediate, 0)]
    ensures s.arps == seq(m, _ => ArpIdle)
  {
    var s0 := Init(n, m, false);
    var hook, thread := Hook(0, Q, true), Thread(true, true);
    ReachesSelf(s0);
    s := Extend(s0, s0, SetEnable(1));
    s := Extend(s0, s, thread);
    s := Extend(s0, s, thread);
    s := TakeSnapshot(s0, s, 0, Q);
    s := Extend(s0, s, hook);
  }

  /** With the two steps apart, as in the source, one packet is enough. */
  lemma StuckReachable(n: nat, m: nat)
    requires n >= 1
    ensures exists acts :: NoWhole(acts) && Stuck(Run(Init(n, m, false), acts))
  {
    var s0 := Init(n, m, false);
    var hook := Hook(0, Q, true);
    var s := HookInGap(n, m);
    s := WritePost(s0, s, 0, Q, AddImmediate);
    s := Extend(s0, s, hook);
    s := Extend(s0, s, hook);
    assert s.hooks == seq(n, _ => Idle);
    s := Extend(s0, s, Thread(true, true));
  }
}
