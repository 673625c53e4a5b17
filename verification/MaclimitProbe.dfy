/** Whom a probing pass judges alive. The thread is split at every access, so
    there is a moment between lines 155 and 156 when the flag already says
    "check" and the comparison MAC is still that of the entry probed before. */
module MaclimitProbe {
  import opened Maclimit
  import opened MaclimitMachine
  import opened MaclimitAtomic
  import opened MaclimitFlag
  import MaclimitNodes
  import MaclimitTight

  // ----- the packet hook and the thread take turns, whatever ARP hooks do

  predicate HookApart(s: State, pc: HookPc) {
    match pc
    case Chosen(_, mode) => AddRequest(mode)
    case Posting(_, mode, _) =>
      AddRequest(mode) && !Engaged(s.pc) && (s.sh.flag == NoAddTask || s.sh.flag == ArpReplayOk)
    case _ => true
  }

  predicate Apart(s: State) {
    && |s.hooks| <= 1 && (Engaged(s.pc) ==> s.sh.flag != NoAddTask)
    && forall i :: 0 <= i < |s.hooks| ==> HookApart(s, s.hooks[i])
  }

  lemma HookStaysApart(s: State, i: nat, p: Packet, lock: bool)
    requires Apart(s) && i < |s.hooks|
    ensures Apart(HookStep(s, i, p, lock))
  {
    var s' := HookStep(s, i, p, lock);
    assert HookApart(s, s.hooks[i]);
    assert s'.pc == s.pc && |s'.hooks| == |s.hooks|;
    assert HookApart(s', s'.hooks[i]);
  }

  lemma ThreadStaysApart(s: State, ok: bool, ok2: bool)
    requires Apart(s)
    ensures Apart(ThreadStep(s, ok, ok2))
  {
    var s' := ThreadStep(s, ok, ok2);
    forall i | 0 <= i < |s'.hooks| ensures HookApart(s', s'.hooks[i]) {
      assert HookApart(s, s.hooks[i]);
    }
  }

  lemma OtherStaysApart(s: State, a: Action)
    requires Apart(s) && !a.Hook? && !a.Thread? && (a.Whole? ==> s.hooks == [])
    ensures Apart(Step(s, a))
  {
    var s' := Step(s, a);
    assert s'.hooks == s.hooks && s'.pc == s.pc;
    forall i | 0 <= i < |s'.hooks| ensures HookApart(s', s'.hooks[i]) {
      assert HookApart(s, s.hooks[i]);
    }
  }

  lemma StaysApart(s: State, a: Action)
    requires Apart(s) && (a.Whole? ==> s.hooks == [])
    ensures Apart(Step(s, a))
  {
    if a.Hook? {
      if a.i < |s.hooks| && !s.gone { HookStaysApart(s, a.i, a.p, a.lock); }
    } else if a.Thread? {
      if !s.gone { ThreadStaysApart(s, a.ok, a.ok2); }
    } else {
      OtherStaysApart(s, a);
    }
  }

  // ----- the pass

  predicate Marked(log: ProbeLog) { log.heard || log.stray }

  /** From the second entry on the comparison MAC of line 155 is the previous entry's. */
  predicate ComparesPrevious(s: State, j: nat) {
    0 < j <= |s.sh.list| ==> s.sh.arpCmpMac == s.sh.list[j - 1].mac
  }

  /** The first j entries were judged in this pass, and each had a mark. */
  predicate AllMarked(marks: seq<bool>, j: nat) {
    |marks| == j && forall i :: 0 <= i < j ==> marks[i]
  }

  /** Entry j is the first one without. */
  predicate FirstUnmarked(marks: seq<bool>, j: nat) {
    |marks| == j + 1 && !marks[j] && forall i :: 0 <= i < j ==> marks[i]
  }

  predicate UnderProbe(s: State, j: nat) {
    && j < |s.sh.list| && s.sh.arpCmpMac == s.sh.list[j].mac && AllMarked(s.h.probe.marks, j)
    && Probing(s.sh.flag) && (s.sh.flag == ArpReplayOk <==> Marked(s.h.probe))
  }

  predicate Inv(s: State) {
    match s.pc
    case Next(j) => ComparesPrevious(s, j) && AllMarked(s.h.probe.marks, j)
    case SetCmp(j) =>
      ComparesPrevious(s, j) && AllMarked(s.h.probe.marks, j) && Probing(s.sh.flag) &&
      !s.h.probe.heard && (s.sh.flag == ArpReplayOk <==> s.h.probe.stray)
    case Probe(j, i) => i <= 5 && UnderProbe(s, j)
    case Wait(j, i) => i < 5 && UnderProbe(s, j)
    case Judge(j) => UnderProbe(s, j)
    case ReplAlloc(j) => FirstUnmarked(s.h.probe.marks, j)
    case ReplLink(j, _) => FirstUnmarked(s.h.probe.marks, j)
    case _ => true
  }

  /** The judgement itself: a mark sends the thread on, none to the replacement. */
  lemma JudgeKeeps(s: State, ok: bool, ok2: bool)
    requires Inv(s) && s.pc.Judge?
    ensures Inv(ThreadStep(s, ok, ok2))
  {
    var marks, marks' := s.h.probe.marks, ThreadStep(s, ok, ok2).h.probe.marks;
    assert marks' == marks + [Marked(s.h.probe)];
  }

  lemma LoopKeeps(s: State, ok: bool, ok2: bool)
    requires Inv(s) && MaclimitNodes.Inv(s) && (s.pc.Next? || s.pc.SetCmp? || s.pc.Probe? || s.pc.Wait?)
    ensures Inv(ThreadStep(s, ok, ok2))
  {
    assert ThreadStep(s, ok, ok2).h.probe.marks == s.h.probe.marks;
  }

  lemma ThreadKeeps(s: State, ok: bool, ok2: bool)
    requires Inv(s) && MaclimitNodes.Inv(s)
    ensures Inv(ThreadStep(s, ok, ok2))
  {
    if s.pc.Judge? {
      JudgeKeeps(s, ok, ok2);
    } else if s.pc.Next? || s.pc.SetCmp? || s.pc.Probe? || s.pc.Wait? {
      LoopKeeps(s, ok, ok2);
    } else if s.pc.ReplAlloc? {
      assert ThreadStep(s, ok, ok2).h.probe == s.h.probe;
    }
  }

  lemma HookKeeps(s: State, i: nat, p: Packet, lock: bool)
    requires Inv(s) && Apart(s) && i < |s.hooks|
    ensures Inv(HookStep(s, i, p, lock))
  {
    var s' := HookStep(s, i, p, lock);
    assert HookApart(s, s.hooks[i]);
    assert s'.pc == s.pc;
    if Engaged(s.pc) {
      assert !s.hooks[i].Posting?;
      assert s'.sh == s.sh && s'.h == s.h;
    }
  }

  /** A mark, whoever's frame it comes from, is recorded as one. */
  lemma MarkKeeps(s: State, mac: Mac, s': State)
    requires Inv(s) && s'.pc == s.pc && s'.sh == s.sh.(flag := ArpReplayOk)
    requires s'.h == s.h.(probe := Landed(s, mac)) && (s.pc.SetCmp? ==> s.pc.j < |s.sh.list|)
    ensures Inv(s')
  {
    assert s'.h.probe.marks == s.h.probe.marks;
  }

  lemma ArpKeeps(s: State, a: Action)
    requires Inv(s) && MaclimitNodes.Inv(s) && !s.gone && (a.Arp? || a.WholeArp?)
    ensures Inv(Step(s, a))
  {
    if a.WholeArp? {
      if ArpIn(s.sh, a.mac) != s.sh { MarkKeeps(s, a.mac, Step(s, a)); }
    } else if a.i < |s.arps| {
      var s' := ArpStep(s, a.i, a.mac);
      if s.arps[a.i].ArpMatched? {
        MarkKeeps(s, s.arps[a.i].mac, s');
      } else {
        assert s'.pc == s.pc && s'.sh == s.sh && s'.h == s.h;
      }
    }
  }

  lemma OtherKeeps(s: State, a: Action)
    requires Inv(s) && Apart(s) && !s.gone && !a.Hook? && !a.Thread? && !a.Arp? && !a.WholeArp?
    ensures Inv(Step(s, a))
  {
    var s' := Step(s, a);
    assert s'.pc == s.pc;
    if Engaged(s.pc) {
      assert s'.sh.list == s.sh.list && s'.sh.flag == s.sh.flag && s'.sh.arpCmpMac == s.sh.arpCmpMac && s'.h == s.h;
    }
  }

  lemma StepKeeps(s: State, a: Action)
    requires Inv(s) && Apart(s) && MaclimitNodes.Inv(s)
    ensures Inv(Step(s, a))
  {
    if s.gone {
    } else if a.Hook? {
      if a.i < |s.hooks| { HookKeeps(s, a.i, a.p, a.lock); }
    } else if a.Thread? {
      ThreadKeeps(s, a.ok, a.ok2);
    } else if a.Arp? || a.WholeArp? {
      ArpKeeps(s, a);
    } else {
      OtherKeeps(s, a);
    }
  }

  predicate Good(s: State) {
    Inv(s) && Apart(s) && MaclimitNodes.Inv(s)
  }

  lemma GoodStep(s: State, a: Action)
    requires Good(s) && (a.Whole? ==> s.hooks == [])
    ensures Good(Step(s, a))
  {
    StepKeeps(s, a);
    StaysApart(s, a);
    MaclimitNodes.StepKeeps(s, a);
  }

  lemma {:induction false} RunKeeps(n: nat, m: nat, merged: bool, acts: seq<Action>)
    requires OneAtATime(n, acts)
    ensures var s := Run(Init(n, m, merged), acts); Good(s) && |s.hooks| == n
    decreases |acts|
  {
    if acts != [] {
      var before := acts[..|acts| - 1];
      RunKeeps(n, m, merged, before);
      GoodStep(Run(Init(n, m, merged), before), acts[|acts| - 1]);
      SameHooks(Run(Init(n, m, merged), before), acts[|acts| - 1]);
    }
  }

  /** In every run, split ARP hooks included: a probed entry is kept exactly when
      some mark landed since line 155; a pass over all entries found each of them
      marked; and the entry being replaced is the first one without a mark. */
  lemma JudgedByMarks(n: nat, m: nat, merged: bool, acts: seq<Action>, ok: bool)
    requires OneAtATime(n, acts)
    ensures var s := Run(Init(n, m, merged), acts);
            && (s.pc.Judge? ==> NextPc(s, ok) == if Marked(s.h.probe) then Next(s.pc.j + 1) else ReplAlloc(s.pc.j))
            && (s.pc.Next? ==> AllMarked(s.h.probe.marks, s.pc.j))
            && (s.pc.ReplLink? ==> s.pc.j < |s.sh.list| && FirstUnmarked(s.h.probe.marks, s.pc.j))
  {
    RunKeeps(n, m, merged, acts);
  }

  /** An entry without a mark is given all five waits. */
  lemma FiveWaits(n: nat, m: nat, merged: bool, acts: seq<Action>, ok: bool)
    requires OneAtATime(n, acts)
    ensures var s := Run(Init(n, m, merged), acts);
            s.pc.Probe? ==> (NextPc(s, ok).Judge? <==> Marked(s.h.probe) || s.pc.i == 5)
  {
    RunKeeps(n, m, merged, acts);
  }

  // ----- the judgement in terms of the frames that arrive

  predicate NoThread(acts: seq<Action>) {
    forall k :: 0 <= k < |acts| ==> !acts[k].Thread?
  }

  /** The thread stays with entry j throughout. */
  ghost predicate StaysOn(s: State, acts: seq<Action>, j: nat) {
    forall k :: 0 <= k <= |acts| ==> Probed(Run(s, acts[..k]).pc) == j
  }

  /** Packet hooks as in s: uninterrupted ones only where there is no split one. */
  predicate Suits(s: State, acts: seq<Action>) {
    s.arps == [] && (s.hooks == [] || NoWhole(acts))
  }

  /** Same entry, same list, same comparison MAC. */
  predicate SameProbe(s: State, t: State) {
    && t.sh.list == s.sh.list && t.sh.arpCmpMac == s.sh.arpCmpMac
    && t.arps == s.arps && |t.hooks| == |s.hooks| && t.gone == s.gone
  }

  /** One step that leaves the thread where it is, or between two tests of the
      same entry: only a frame from the compared MAC marks. */
  lemma ProbeStep(s: State, a: Action)
    requires Good(s) && !s.gone && s.arps == [] && Probing(s.sh.flag) && (a.Whole? ==> s.hooks == [])
    requires s.pc.SetCmp? || Probed(s.pc) >= 0
    requires if a.Thread? then Probed(s.pc) >= 0 && Probed(Step(s, a).pc) == Probed(s.pc) else true
    ensures var t := Step(s, a);
            && Good(t) && SameProbe(s, t) && Probing(t.sh.flag) && (!a.Thread? ==> t.pc == s.pc)
            && (t.sh.flag == ArpReplayOk <==> s.sh.flag == ArpReplayOk || a == WholeArp(s.sh.arpCmpMac))
  {
    GoodStep(s, a);
    SameHooks(s, a);
    if a.Hook? && a.i < |s.hooks| {
      assert HookApart(s, s.hooks[a.i]);
      var t := HookStep(s, a.i, a.p, a.lock);
      assert t.pc == s.pc && t.sh == s.sh && t.arps == s.arps;
    }
  }

  /** While the comparison MAC is still the old one. */
  lemma {:induction false} GapFrames(s: State, gap: seq<Action>)
    requires Good(s) && !s.gone && Suits(s, gap) && s.pc.SetCmp? && NoThread(gap)
    ensures var t := Run(s, gap);
            && Good(t) && SameProbe(s, t) && Probing(t.sh.flag) && t.pc == s.pc
            && (t.sh.flag == ArpReplayOk <==> s.sh.flag == ArpReplayOk || WholeArp(s.sh.arpCmpMac) in gap)
    decreases |gap|
  {
    if gap != [] {
      var before, a := gap[..|gap| - 1], gap[|gap| - 1];
      GapFrames(s, before);
      ProbeStep(Run(s, before), a);
      assert gap == before + [a];
    }
  }

  lemma StayedOn(s: State, acts: seq<Action>, a: Action, j: nat)
    requires StaysOn(s, acts + [a], j)
    ensures StaysOn(s, acts, j)
    ensures Probed(Run(s, acts).pc) == j && Probed(Step(Run(s, acts), a).pc) == j
  {
    var all := acts + [a];
    assert forall k :: 0 <= k <= |acts| ==> acts[..k] == all[..k];
    RunSnoc(s, acts, a);
    assert all[..|all|] == all && all[..|acts|] == acts;
    assert Probed(Run(s, all[..|all|]).pc) == j && Probed(Run(s, all[..|acts|]).pc) == j;
  }

  lemma {:induction false} ProbeFrames(s: State, rest: seq<Action>, j: nat)
    requires Good(s) && !s.gone && Suits(s, rest) && StaysOn(s, rest, j)
    ensures var t := Run(s, rest);
            && Good(t) && SameProbe(s, t) && Probing(t.sh.flag)
            && (t.sh.flag == ArpReplayOk <==> s.sh.flag == ArpReplayOk || WholeArp(s.sh.arpCmpMac) in rest)
    decreases |rest|
  {
    if rest == [] {
      assert rest[..0] == [];
    } else {
      var before, a := rest[..|rest| - 1], rest[|rest| - 1];
      assert rest == before + [a];
      StayedOn(s, before, a, j);
      ProbeFrames(s, before, j);
      ProbeStep(Run(s, before), a);
    }
  }

  /** One entry's probing from line 155 to the final look: what happened between
      the two lines, and from line 156 on. */
  ghost predicate ProbingOf(s: State, gap: seq<Action>, rest: seq<Action>, j: nat, ok: bool) {
    && s.pc == Next(j) && j < |s.sh.list| && !s.gone && NoThread(gap)
    && var u := Step(Run(Step(s, Thread(ok, ok)), gap), Thread(ok, ok));
       StaysOn(u, rest, j) && Run(u, rest).pc == Judge(j)
  }

  function Judged(s: State, gap: seq<Action>, rest: seq<Action>, ok: bool): State {
    Run(Step(Run(Step(s, Thread(ok, ok)), gap), Thread(ok, ok)), rest)
  }

  lemma KeptExactly(s: State, gap: seq<Action>, rest: seq<Action>, j: nat, ok: bool)
    requires Good(s) && Suits(s, gap) && Suits(s, rest) && ProbingOf(s, gap, rest, j, ok)
    ensures NextPc(Judged(s, gap, rest, ok), ok).Next? <==>
              WholeArp(s.sh.list[j].mac) in rest || WholeArp(s.sh.arpCmpMac) in gap
  {
    var a := Thread(ok, ok);
    var t := Step(s, a);
    GoodStep(s, a);
    assert t.sh == s.sh.(flag := ArpReplayCheck) && t.pc == SetCmp(j) && t.hooks == s.hooks;
    GapFrames(t, gap);
    var u := Run(t, gap);
    GoodStep(u, a);
    var v := Step(u, a);
    assert v.sh == u.sh.(arpCmpMac := s.sh.list[j].mac) && v.arps == [] && |v.hooks| == |s.hooks| && !v.gone;
    ProbeFrames(v, rest, j);
  }

  /** The MAC of the entry line 156 was last taken for; the one compared at the
      start of the run as long as there was none. */
  function LastProbed(s: State, acts: seq<Action>): Mac
    decreases |acts|
  {
    if acts == [] then s.sh.arpCmpMac
    else
      var before := acts[..|acts| - 1];
      var t := Run(s, before);
      if acts[|acts| - 1].Thread? && t.pc.SetCmp? && t.pc.j < |t.sh.list| && !t.gone then t.sh.list[t.pc.j].mac
      else LastProbed(s, before)
  }

  /** A step other than line 156 leaves the compared MAC alone. */
  lemma OnlyLine156(s: State, a: Action)
    ensures Step(s, a).sh.arpCmpMac ==
            if a.Thread? && s.pc.SetCmp? && s.pc.j < |s.sh.list| && !s.gone then s.sh.list[s.pc.j].mac
            else s.sh.arpCmpMac
  {
    if a.Arp? || a.WholeArp? {
      MaclimitNodes.ArpFrame(s, a);
    } else if a.Hook? && a.i < |s.hooks| && !s.gone {
      MaclimitNodes.HookFrame(s, a.i, a.p, a.lock);
    }
  }

  /** In every run the compared MAC is that of the entry probed last, in this pass
      or an earlier one, and 0 before the first. */
  lemma {:induction false} ComparesLast(n: nat, m: nat, merged: bool, acts: seq<Action>)
    ensures Run(Init(n, m, merged), acts).sh.arpCmpMac == LastProbed(Init(n, m, merged), acts)
    ensures Init(n, m, merged).sh.arpCmpMac == 0
    decreases |acts|
  {
    if acts != [] {
      ComparesLast(n, m, merged, acts[..|acts| - 1]);
      OnlyLine156(Run(Init(n, m, merged), acts[..|acts| - 1]), acts[|acts| - 1]);
    }
  }

  /** With uninterrupted hooks: an entry is kept exactly when a frame of its own
      arrives from line 156 to the final look, or a frame from the MAC compared
      before arrives between lines 155 and 156. That MAC is the one probed last,
      from the second entry on the previous entry's. */
  lemma JudgedByFrames(n: nat, merged: bool, before: seq<Action>, gap: seq<Action>, rest: seq<Action>,
                       j: nat, ok: bool)
    requires OneAtATime(n, before) && (n > 0 ==> NoWhole(gap) && NoWhole(rest))
    requires ProbingOf(Run(Init(n, 0, merged), before), gap, rest, j, ok)
    ensures var s := Run(Init(n, 0, merged), before);
            && (NextPc(Judged(s, gap, rest, ok), ok).Next? <==>
                  WholeArp(s.sh.list[j].mac) in rest || WholeArp(s.sh.arpCmpMac) in gap)
            && s.sh.arpCmpMac == LastProbed(Init(n, 0, merged), before)
            && (j > 0 ==> s.sh.arpCmpMac == s.sh.list[j - 1].mac)
  {
    ComparesLast(n, 0, merged, before);
    RunKeeps(n, 0, merged, before);
    MaclimitFlag.RunKeeps(n, merged, before);
    KeptExactly(Run(Init(n, 0, merged), before), gap, rest, j, ok);
  }

  // ----- a silent entry is spared

  /** Entry j answered none of its probes and is kept. */
  ghost predicate Spared(s: State, j: nat) {
    s.pc == Judge(j) && |s.sh.list| == j + 1 && !s.h.probe.heard && NextPc(s, true) == Next(j + 1)
  }

  lemma FirstAnswers(s0: State, s: State) returns (t: State)
    requires Reaches(s0, s) && !s.gone && s.pc == SetCmp(0) && s.sh.flag == ArpReplayCheck && |s.sh.list| > 0
    ensures Reaches(s0, t) && t.pc == Next(1)
    ensures t == s.(pc := Next(1), sh := s.sh.(flag := ArpReplayOk, arpCmpMac := s.sh.list[0].mac),
                    asleep := false, h := t.h)
  {
    var a := Thread(true, true);
    t := Extend(s0, s, a);
    t := Extend(s0, t, WholeArp(s.sh.list[0].mac));
    t := Extend(s0, t, a);
    t := Extend(s0, t, a);
  }

  lemma ToSecond(s0: State, s: State) returns (t: State)
    requires Reaches(s0, s) && !s.gone && s.pc == SetCmp(0) && s.sh.flag == ArpReplayCheck && |s.sh.list| == 2
    ensures Reaches(s0, t) && !t.gone && t.pc == SetCmp(1) && t.sh.flag == ArpReplayCheck
    ensures t.sh.list == s.sh.list && !t.h.probe.heard
  {
    t := FirstAnswers(s0, s);
    t := Extend(s0, t, Thread(true, true));
  }

  lemma AnswersAgain(s0: State, s: State, j: nat) returns (t: State)
    requires Reaches(s0, s) && !s.gone && s.pc == SetCmp(j) && s.sh.flag == ArpReplayCheck && |s.sh.list| == j + 1
    requires !s.h.probe.heard
    ensures Reaches(s0, t) && Spared(t, j) && t.sh.arpCmpMac == t.sh.list[j].mac
  {
    var a := Thread(true, true);
    t := Extend(s0, s, WholeArp(s.sh.arpCmpMac));
    t := Extend(s0, t, a);
    t := Extend(s0, t, a);
  }

  /** One packet hook and uninterrupted frames are enough: the entry before it
      answers a second time between the two lines. */
  lemma SparedReachable()
    ensures exists acts :: NoWhole(acts) && Spared(Run(Init(1, 0, false), acts), 1)
  {
    var s0 := Init(1, 0, false);
    var s := MaclimitTight.Fill(1, 0, 2, 2);
    s := PostCheck(s0, s, 2, 2);
    s := StartPass(s0, s, 2);
    s := ToSecond(s0, s);
    s := AnswersAgain(s0, s, 1);
  }

  lemma PassEnds(s0: State, s: State, h: int) returns (t: State)
    requires Reaches(s0, s) && MaclimitTight.Awake(s, h) && s.pc == Next(|s.sh.list|)
    ensures Reaches(s0, t) && MaclimitTight.Quiet(t, h) && t.hooks == s.hooks
    ensures t.sh == s.sh.(flag := NoAddTask)
  {
    var a := Thread(true, true);
    t := Extend(s0, s, a);
    t := Extend(s0, t, a);
    t := Extend(s0, t, a);
  }

  /** A list of one entry that answers, and the thread asleep again. */
  lemma OneEntryPass(s0: State, s: State) returns (t: State)
    requires Reaches(s0, s) && MaclimitTight.Quiet(s, 1) && |s.sh.list| == 1 && MaclimitTight.Below(s.sh.list, 1)
    requires |s.hooks| > 0 && s.hooks[0] == Idle
    ensures Reaches(s0, t) && MaclimitTight.Quiet(t, 1) && t.hooks == s.hooks
    ensures t.sh.list == s.sh.list && t.sh.arpCmpMac == s.sh.list[0].mac
  {
    t := PostCheck(s0, s, 1, 1);
    t := StartPass(s0, t, 1);
    t := FirstAnswers(s0, t);
    t := PassEnds(s0, t, 1);
  }

  /** The entry compared before can be the entry itself, from an earlier pass:
      its frame then counts although it comes before its first probe. */
  lemma OwnEarlyFrame()
    ensures exists acts :: NoWhole(acts) &&
              var s := Run(Init(1, 0, false), acts); Spared(s, 0) && s.sh.arpCmpMac == s.sh.list[0].mac
  {
    var s0 := Init(1, 0, false);
    var s := MaclimitTight.Fill(1, 0, 1, 1);
    s := OneEntryPass(s0, s);
    s := PostCheck(s0, s, 1, 1);
    s := StartPass(s0, s, 1);
    s := AnswersAgain(s0, s, 0);
  }
}
