/** Ownership of the one-slot mailbox. With one packet hook context the thread
    only ever links whole posts, each at most once; with two it can link a node
    that nobody posted. */
module MaclimitMailbox {
  import opened Maclimit
  import opened MaclimitMachine
  import opened MaclimitAtomic
  import MaclimitNodes

  predicate Below(xs: seq<int>, bound: int) {
    forall k :: 0 <= k < |xs| ==> 0 <= xs[k] < bound
  }

  predicate Increasing(xs: seq<int>) {
    forall j, k :: 0 <= j < k < |xs| ==> xs[j] < xs[k]
  }

  /** The first k payload fields hold this post. */
  predicate Written(node: Node, terminal: Node, k: nat) {
    && (k > 0 ==> node.srcip == terminal.srcip)
    && (k > 1 ==> node.dstip == terminal.dstip)
    && (k > 2 ==> node.dev == terminal.dev)
    && (k > 3 ==> node.mac == terminal.mac)
  }

  /** The payload is the last post, complete and not yet linked. */
  predicate Fresh(s: State) {
    |s.h.posts| > 0 && s.sh.node == s.h.posts[|s.h.posts| - 1] && Below(s.h.linked, |s.h.posts| - 1)
  }

  predicate HookOwns(s: State, pc: HookPc) {
    match pc
    case Chosen(_, mode) => AddRequest(mode)
    case Posting(q, mode, k) =>
      AddRequest(mode) && (s.sh.flag == NoAddTask || s.sh.flag == ArpReplayOk) &&
      !Engaged(s.pc) && k <= 4 && Written(s.sh.node, q.terminal, k)
    case _ => true
  }

  predicate ThreadOwns(s: State) {
    && (Engaged(s.pc) ==> s.sh.flag != NoAddTask && s.h.cur == |s.h.posts| - 1)
    && (MaclimitAtomic.Pending(s) ==> Fresh(s))
    && (s.pc.ImmLink? ==> s.pc.node == s.sh.node)
    && (s.pc.ReplLink? ==> s.pc.node == s.sh.node)
  }

  ghost predicate Linked(s: State) {
    && |s.h.ids| == |s.sh.list|
    && Below(s.h.linked, |s.h.posts|) && Increasing(s.h.linked)
    && forall k :: 0 <= k < |s.h.ids| ==>
         0 <= s.h.ids[k] < |s.h.posts| && s.h.ids[k] in s.h.linked && s.sh.list[k] == s.h.posts[s.h.ids[k]]
  }

  ghost predicate Inv(s: State) {
    && |s.hooks| <= 1
    && (forall i :: 0 <= i < |s.hooks| ==> HookOwns(s, s.hooks[i]))
    && ThreadOwns(s) && Linked(s)
  }

  lemma PostCompletes(s: State, i: nat, p: Packet, lock: bool)
    requires Inv(s) && i < |s.hooks| && s.hooks[i].Posting? && s.hooks[i].k >= 4
    ensures ThreadOwns(HookStep(s, i, p, lock)) && Linked(HookStep(s, i, p, lock))
    ensures HookStep(s, i, p, lock).hooks[i].Waking?
  {
    var s' := HookStep(s, i, p, lock);
    assert HookOwns(s, s.hooks[i]);
    assert s.sh.node == s.hooks[i].p.terminal;
    assert s'.h.posts[|s.h.posts|] == s.sh.node;
    assert forall k :: 0 <= k < |s.h.posts| ==> s'.h.posts[k] == s.h.posts[k];
  }

  lemma PostAdvances(s: State, i: nat, p: Packet, lock: bool)
    requires Inv(s) && i < |s.hooks| && s.hooks[i].Posting? && s.hooks[i].k < 4
    ensures var s' := HookStep(s, i, p, lock);
            ThreadOwns(s') && Linked(s') && HookOwns(s', s'.hooks[i])
  {
    var s' := HookStep(s, i, p, lock);
    assert HookOwns(s, s.hooks[i]);
    assert !MaclimitAtomic.Pending(s);
    assert s'.h == s.h && s'.pc == s.pc && s'.sh.list == s.sh.list && s'.sh.flag == s.sh.flag;
  }

  lemma HookKeeps(s: State, i: nat, p: Packet, lock: bool)
    requires Inv(s) && i < |s.hooks|
    ensures Inv(HookStep(s, i, p, lock))
  {
    var s' := HookStep(s, i, p, lock);
    if s.hooks[i].Posting? {
      if s.hooks[i].k >= 4 { PostCompletes(s, i, p, lock); } else { PostAdvances(s, i, p, lock); }
    } else {
      assert HookOwns(s, s.hooks[i]);
      assert s'.h == s.h && s'.pc == s.pc && s'.sh == s.sh;
      assert HookOwns(s', s'.hooks[i]);
    }
    assert |s'.hooks| == |s.hooks| <= 1;
  }

  /** Linking a fresh post keeps the record of what was linked. */
  lemma LinkedAppend(s: State, list': seq<Node>, ids': seq<int>)
    requires Linked(s) && s.h.cur == |s.h.posts| - 1 && |s.h.posts| > 0 && Below(s.h.linked, s.h.cur)
    requires |ids'| == |list'|
    requires forall k :: 0 <= k < |ids'| ==>
               (ids'[k] == s.h.cur && list'[k] == s.h.posts[s.h.cur]) ||
               (exists j :: 0 <= j < |s.h.ids| && ids'[k] == s.h.ids[j] && list'[k] == s.sh.list[j])
    ensures Linked(s.(sh := s.sh.(list := list'),
                      h := s.h.(ids := ids', linked := s.h.linked + [s.h.cur])))
  {
    var linked' := s.h.linked + [s.h.cur];
    assert linked'[|s.h.linked|] == s.h.cur;
    assert forall x :: x in s.h.linked ==> x in linked';
  }

  lemma AddLinks(s: State, ok: bool, ok2: bool)
    requires Inv(s) && s.pc.ImmLink?
    ensures Linked(ThreadStep(s, ok, ok2))
  {
    var s' := ThreadStep(s, ok, ok2);
    forall k | 0 < k < |s'.h.ids|
      ensures s'.h.ids[k] == s.h.ids[k - 1] && s'.sh.list[k] == s.sh.list[k - 1] {}
    LinkedAppend(s, s'.sh.list, s'.h.ids);
  }

  lemma ReplaceLinks(s: State, ok: bool, ok2: bool)
    requires Inv(s) && s.pc.ReplLink? && s.pc.j < |s.sh.list|
    ensures Linked(ThreadStep(s, ok, ok2))
  {
    var s' := ThreadStep(s, ok, ok2);
    forall k | 0 <= k < |s'.h.ids| && k != s.pc.j
      ensures s'.h.ids[k] == s.h.ids[k] && s'.sh.list[k] == s.sh.list[k] {}
    LinkedAppend(s, s'.sh.list, s'.h.ids);
  }

  lemma ThreadLinks(s: State, ok: bool, ok2: bool)
    requires Inv(s) && MaclimitNodes.Inv(s)
    ensures Linked(ThreadStep(s, ok, ok2))
  {
    if s.pc.ImmLink? {
      AddLinks(s, ok, ok2);
    } else if s.pc.ReplLink? {
      ReplaceLinks(s, ok, ok2);
    } else {
      var s' := ThreadStep(s, ok, ok2);
      assert s'.h.ids == s.h.ids && s'.h.linked == s.h.linked && s'.h.posts == s.h.posts && s'.sh.list == s.sh.list;
    }
  }

  lemma ThreadStillOwns(s: State, ok: bool, ok2: bool)
    requires Inv(s)
    ensures ThreadOwns(ThreadStep(s, ok, ok2))
  {
    var s' := ThreadStep(s, ok, ok2);
    assert s'.h.posts == s.h.posts && s'.sh.node == s.sh.node;
    if s.pc.Clear? {
      assert s'.sh.flag == NoAddTask;
    } else {
      assert MaclimitAtomic.Pending(s') && !s.pc.Start? ==> s'.h.cur == s.h.cur;
      assert MaclimitAtomic.Pending(s') ==> MaclimitAtomic.Pending(s) && s'.h.linked == s.h.linked;
    }
  }

  lemma ThreadKeeps(s: State, ok: bool, ok2: bool)
    requires Inv(s) && MaclimitNodes.Inv(s)
    ensures Inv(ThreadStep(s, ok, ok2))
  {
    ThreadLinks(s, ok, ok2);
    ThreadStillOwns(s, ok, ok2);
    var s' := ThreadStep(s, ok, ok2);
    forall i | 0 <= i < |s'.hooks| ensures HookOwns(s', s'.hooks[i]) {
      assert HookOwns(s, s.hooks[i]);
    }
  }

  /** A mark changes the flag, to ok, and the probing history. */
  lemma MarkKeeps(s: State, s': State)
    requires Inv(s) && s'.hooks == s.hooks && s'.pc == s.pc && s'.h == s.h.(probe := s'.h.probe)
    requires s'.sh == s.sh.(flag := s'.sh.flag) && (s'.sh.flag == s.sh.flag || s'.sh.flag == ArpReplayOk)
    ensures Inv(s')
  {
    forall j | 0 <= j < |s'.hooks| ensures HookOwns(s', s'.hooks[j]) {
      assert HookOwns(s, s.hooks[j]);
    }
  }

  lemma ArpKeeps(s: State, i: nat, mac: Mac)
    requires Inv(s) && i < |s.arps|
    ensures Inv(ArpStep(s, i, mac))
  {
    MarkKeeps(s, ArpStep(s, i, mac));
  }

  lemma WholeArpKeeps(s: State, mac: Mac)
    requires Inv(s)
    ensures Inv(WholeArpStep(s, mac))
  {
    MarkKeeps(s, WholeArpStep(s, mac));
  }

  lemma OtherKeeps(s: State, a: Action)
    requires Inv(s) && (a.SetLimit? || a.SetEnable? || a.Stop? || a.Cleanup?)
    ensures Inv(Step(s, a))
  {
    var s' := Step(s, a);
    assert s'.hooks == s.hooks && s'.pc == s.pc && s'.h.posts == s.h.posts && s'.h.linked == s.h.linked;
    assert s'.sh.flag == s.sh.flag && s'.sh.node == s.sh.node;
    forall j | 0 <= j < |s'.hooks| ensures HookOwns(s', s'.hooks[j]) {
      assert HookOwns(s, s.hooks[j]);
    }
  }

  lemma StepKeeps(s: State, a: Action)
    requires Inv(s) && MaclimitNodes.Inv(s) && !a.Whole?
    ensures Inv(Step(s, a))
  {
    if s.gone {
    } else if a.Hook? {
      if a.i < |s.hooks| { HookKeeps(s, a.i, a.p, a.lock); }
    } else if a.Thread? {
      ThreadKeeps(s, a.ok, a.ok2);
    } else if a.Arp? {
      if a.i < |s.arps| { ArpKeeps(s, a.i, a.mac); }
    } else if a.WholeArp? {
      WholeArpKeeps(s, a.mac);
    } else {
      OtherKeeps(s, a);
    }
  }

  lemma {:induction false} RunKeeps(n: nat, m: nat, merged: bool, acts: seq<Action>)
    requires n <= 1 && NoWhole(acts)
    ensures Inv(Run(Init(n, m, merged), acts))
    decreases |acts|
  {
    if acts != [] {
      RunKeeps(n, m, merged, acts[..|acts| - 1]);
      MaclimitNodes.RunKeeps(n, m, merged, acts[..|acts| - 1]);
      StepKeeps(Run(Init(n, m, merged), acts[..|acts| - 1]), acts[|acts| - 1]);
    }
  }

  /** With one packet hook context: every entry is a whole post, no post is
      linked twice (now or before), posts are linked in the order they were
      made, and while the thread works on a request the payload is that post. */
  lemma WholePostsOnce(m: nat, merged: bool, acts: seq<Action>)
    requires NoWhole(acts)
    ensures var s := Run(Init(1, m, merged), acts); Linked(s) && ThreadOwns(s)
  {
    RunKeeps(1, m, merged, acts);
  }

  const A := Node(1, 1, 1, 1)
  const B := Node(2, 2, 2, 2)

  /** Context i steps until it has chosen to post terminal, with the flag seen free. */
  lemma ReadyToPost(s0: State, s: State, i: nat, terminal: Node) returns (t: State)
    requires Reaches(s0, s) && !s.gone && i < |s.hooks| && s.hooks[i] == Idle
    requires s.sh.list == [] && s.sh.enable == 1 && s.sh.limit == 1 && s.sh.flag == NoAddTask
    ensures Reaches(s0, t)
    ensures t == s.(hooks := s.hooks[i := Posting(Packet(terminal, false, true), AddImmediate, 0)])
  {
    var q := Packet(terminal, false, true);
    t := TakeSnapshot(s0, s, i, q);
    t := Extend(s0, t, Hook(i, q, true));
  }

  lemma HalfPost(s0: State, s: State) returns (t: State)
    requires Reaches(s0, s) && !s.gone && |s.hooks| > 0
    requires s.hooks[0] == Posting(Packet(A, false, true), AddImmediate, 0)
    ensures Reaches(s0, t)
    ensures t == s.(hooks := s.hooks[0 := Posting(Packet(A, false, true), AddImmediate, 2)],
                    sh := s.sh.(node := s.sh.node.(srcip := 1, dstip := 1)))
  {
    t := Extend(s0, s, Hook(0, Packet(A, false, true), true));
    t := Extend(s0, t, Hook(0, Packet(A, false, true), true));
    assert t.hooks == s.hooks[0 := Posting(Packet(A, false, true), AddImmediate, 2)];
  }

  /** Both contexts have seen the flag free; A has written half its post when B
      completes its own and the thread takes the request. */
  lemma TornHalfway(n: nat, m: nat) returns (s: State)
    requires n >= 2
    ensures Reaches(Init(n, m, false), s) && !s.gone && |s.hooks| == n
    ensures s.hooks[0] == Posting(Packet(A, false, true), AddImmediate, 2)
    ensures s.pc == ImmAlloc && s.sh.node == B && s.h.posts == [B] && s.sh.list == []
  {
    var s0 := Init(n, m, false);
    ReachesSelf(s0);
    s := Extend(s0, s0, SetEnable(1));
    s := ReadyToPost(s0, s, 0, A);
    s := ReadyToPost(s0, s, 1, B);
    s := HalfPost(s0, s);
    s := WritePost(s0, s, 1, Packet(B, false, true), AddImmediate);
    s := Extend(s0, s, Hook(1, Packet(B, false, true), true));
    s := Extend(s0, s, Thread(true, true));
  }

  /** With two contexts the guarantee fails: both see the flag free, and the
      thread links a node that mixes the two posts. */
  lemma TornPost(n: nat, m: nat)
    requires n >= 2
    ensures exists acts :: NoWhole(acts) &&
              var s := Run(Init(n, m, false), acts);
              s.sh.list == [Node(1, 1, 2, 2)] && s.h.posts == [B]
  {
    var s0 := Init(n, m, false);
    var s := TornHalfway(n, m);
    s := Extend(s0, s, Hook(0, Packet(A, false, true), true));
    s := Extend(s0, s, Hook(0, Packet(A, false, true), true));
    assert s.sh.node == Node(1, 1, 2, 2);
    s := Extend(s0, s, Thread(true, true));
    s := Extend(s0, s, Thread(true, true));
  }

  lemma TornIsNotWhole(s: State)
    requires s.sh.list == [Node(1, 1, 2, 2)] && s.h.posts == [B]
    ensures !Linked(s)
  {
    if |s.h.ids| == 1 && s.h.ids[0] == 0 {
      assert s.sh.list[0] != s.h.posts[s.h.ids[0]];
    }
  }

  ghost predicate AlwaysWhole(n: nat, m: nat) {
    forall acts :: NoWhole(acts) ==> Linked(Run(Init(n, m, false), acts))
  }

  /** The mailbox is safe exactly when at most one packet hook runs at a time. */
  lemma SafeIffOneContext(n: nat, m: nat)
    ensures AlwaysWhole(n, m) <==> n <= 1
  {
    if n <= 1 {
      forall acts | NoWhole(acts) ensures Linked(Run(Init(n, m, false), acts)) {
        RunKeeps(n, m, false, acts);
      }
    } else {
      TornPost(n, m);
      var acts :| NoWhole(acts) &&
        var s := Run(Init(n, m, false), acts); s.sh.list == [Node(1, 1, 2, 2)] && s.h.posts == [B];
      TornIsNotWhole(Run(Init(n, m, false), acts));
    }
  }
}
