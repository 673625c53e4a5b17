/** The overshoot is real: for every number n >= 1 of split packet hook contexts
    and every limit h >= 1 some interleaving makes the list h + n long. */
module MaclimitTight {
  import opened Maclimit
  import opened MaclimitMachine
  import MaclimitAtomic

  function Terminal(mac: Mac): Node { Node(0, mac, 0, 0) }

  function From(mac: Mac): Packet { Packet(Terminal(mac), false, true) }

  predicate Running(s: State, h: int) {
    && !s.gone && !s.stopping && !s.merged && s.pc == Sched
    && s.sh.enable == 1 && s.sh.limit == h && s.high == h
  }

  /** The thread sleeps and the mailbox is free. */
  predicate Quiet(s: State, h: int) {
    Running(s, h) && s.asleep && s.sh.flag == NoAddTask
  }

  predicate Below(list: seq<Node>, mac: int) {
    forall k :: 0 <= k < |list| ==> list[k].mac < mac
  }

  /** Context i takes its "not full" snapshot. */
  lemma Snapshot(s0: State, s: State, i: nat, mac: Mac, h: int) returns (t: State)
    requires Reaches(s0, s) && Running(s, h) && i < |s.hooks| && s.hooks[i] == Idle
    requires |s.sh.list| < h && Below(s.sh.list, mac)
    ensures Reaches(s0, t) && t == s.(hooks := s.hooks[i := Chosen(From(mac), AddImmediate)])
  {
    t := TakeSnapshot(s0, s, i, From(mac));
  }

  /** Context i posts on its snapshot. */
  lemma Finish(s0: State, s: State, i: nat, mac: Mac, h: int) returns (t: State)
    requires Reaches(s0, s) && Quiet(s, h) && i < |s.hooks|
    requires s.hooks[i] == Chosen(From(mac), AddImmediate)
    ensures Reaches(s0, t) && Running(t, h) && !t.asleep
    ensures t.sh.flag == AddImmediate && t.sh.node == Terminal(mac)
    ensures t.sh.list == s.sh.list && t.hooks == s.hooks[i := Idle] && t.arps == s.arps
  {
    var a := Hook(i, From(mac), true);
    t := Extend(s0, s, a);
    t := WritePost(s0, t, i, From(mac), AddImmediate);
    t := Extend(s0, t, a);
    t := Extend(s0, t, a);
  }

  predicate Awake(s: State, h: int) {
    && !s.gone && !s.stopping && !s.merged && !s.asleep
    && s.sh.enable == 1 && s.sh.limit == h && s.high == h
  }

  /** The thread links the node in its hand and goes to sleep. */
  lemma Link(s0: State, s: State, h: int) returns (t: State)
    requires Reaches(s0, s) && Awake(s, h) && s.pc.ImmLink?
    ensures Reaches(s0, t) && Quiet(t, h)
    ensures t.sh.list == [s.pc.node] + s.sh.list && t.hooks == s.hooks && t.arps == s.arps
  {
    var a := Thread(true, true);
    t := Extend(s0, s, a);
    t := Extend(s0, t, a);
    t := Extend(s0, t, a);
  }

  /** The thread wakes, links the post and sleeps again. */
  lemma Serve(s0: State, s: State, h: int) returns (t: State)
    requires Reaches(s0, s) && Running(s, h) && !s.asleep && s.sh.flag == AddImmediate
    ensures Reaches(s0, t) && Quiet(t, h)
    ensures t.sh.list == [s.sh.node] + s.sh.list && t.hooks == s.hooks && t.arps == s.arps
  {
    var a := Thread(true, true);
    t := Extend(s0, s, a);
    t := Extend(s0, t, a);
    t := Extend(s0, t, a);
    assert t.pc == ImmLink(s.sh.node) && t.sh == s.sh && t.hooks == s.hooks && t.arps == s.arps && Awake(t, h);
    t := Link(s0, t, h);
  }

  lemma AllIdle(n: nat, m: nat, h: int) returns (t: State)
    requires h >= 1
    ensures Reaches(Init(n, m, false), t) && Quiet(t, h) && t.sh.list == []
    ensures t.hooks == seq(n, _ => Idle) && t.arps == seq(m, _ => ArpIdle)
  {
    var s0 := Init(n, m, false);
    ReachesSelf(s0);
    t := Extend(s0, s0, SetEnable(1));
    t := Extend(s0, t, SetLimit(h));
    t := FallAsleep(s0, t);
  }

  /** Context 0 alone fills the list up to any length not above the limit. */
  lemma {:induction false} Fill(n: nat, m: nat, h: int, len: nat) returns (t: State)
    requires n >= 1 && 1 <= h && len <= h <= 0x1_0000_0000_0000
    ensures Reaches(Init(n, m, false), t) && Quiet(t, h)
    ensures t.hooks == seq(n, _ => Idle) && t.arps == seq(m, _ => ArpIdle)
    ensures |t.sh.list| == len && Below(t.sh.list, len)
  {
    var s0 := Init(n, m, false);
    if len == 0 {
      t := AllIdle(n, m, h);
    } else {
      t := Fill(n, m, h, len - 1);
      t := Snapshot(s0, t, 0, len - 1, h);
      t := Finish(s0, t, 0, len - 1, h);
      t := Serve(s0, t, h);
    }
  }

  /** The first k contexts hold snapshots, the others are idle. */
  predicate Armed(hooks: seq<HookPc>, from: nat, k: nat, h: nat) {
    from <= k <= |hooks| && h + |hooks| <= 0x1_0000_0000_0000 &&
    forall i :: 0 <= i < |hooks| ==>
      hooks[i] == if from <= i < k then Chosen(From(h + i), AddImmediate) else Idle
  }

  lemma {:induction false} Arm(s0: State, s: State, h: nat, k: nat) returns (t: State)
    requires Reaches(s0, s) && Running(s, h) && |s.sh.list| < h && Below(s.sh.list, h)
    requires Armed(s.hooks, 0, 0, h) && k <= |s.hooks|
    ensures Reaches(s0, t) && Armed(t.hooks, 0, k, h) && t == s.(hooks := t.hooks) && |t.hooks| == |s.hooks|
  {
    if k == 0 {
      t := s;
    } else {
      t := Arm(s0, s, h, k - 1);
      t := Snapshot(s0, t, k - 1, h + k - 1, h);
    }
  }

  lemma {:induction false} Fire(s0: State, s: State, h: nat, k: nat) returns (t: State)
    requires Reaches(s0, s) && Quiet(s, h) && |s.sh.list| == h
    requires Armed(s.hooks, 0, |s.hooks|, h) && k <= |s.hooks|
    ensures Reaches(s0, t) && Quiet(t, h) && |t.sh.list| == h + k
    ensures Armed(t.hooks, k, |s.hooks|, h) && |t.hooks| == |s.hooks|
  {
    if k == 0 {
      t := s;
    } else {
      t := Fire(s0, s, h, k - 1);
      t := Finish(s0, t, k - 1, h + k - 1, h);
      t := Serve(s0, t, h);
    }
  }

  /** With MaclimitBound.LengthBound: h + n is exactly the longest list n split
      contexts can produce under a limit that never exceeded h. */
  lemma BoundReached(n: nat, m: nat, h: nat)
    requires n >= 1 && h >= 1 && h + n <= 0x1_0000_0000_0000
    ensures exists acts :: NoWhole(acts) &&
              var s := Run(Init(n, m, false), acts); s.high == h && |s.sh.list| == h + n
  {
    var s0 := Init(n, m, false);
    var t := Fill(n, m, h, h - 1);
    t := Snapshot(s0, t, 0, h - 1, h);
    t := Finish(s0, t, 0, h - 1, h);
    t := Arm(s0, t, h, n);
    t := Serve(s0, t, h);
    t := Fire(s0, t, h, n);
  }

  /** One split context is enough for a terminal to be listed twice: its second
      packet walks the list before the first one's post is linked and reads the
      flag after it was cleared. */
  lemma DuplicateReachable(n: nat, m: nat)
    requires n >= 1
    ensures exists acts :: NoWhole(acts) && Run(Init(n, m, false), acts).sh.list == [Terminal(0), Terminal(0)]
  {
    var s0 := Init(n, m, false);
    var t := AllIdle(n, m, 1);
    t := Snapshot(s0, t, 0, 0, 1);
    t := Finish(s0, t, 0, 0, 1);
    t := Snapshot(s0, t, 0, 0, 1);
    t := Serve(s0, t, 1);
    t := Finish(s0, t, 0, 0, 1);
    t := Serve(s0, t, 1);
  }

  ghost predicate AlwaysDistinct(n: nat, m: nat) {
    forall acts :: DistinctMacs(Run(Init(n, m, false), acts).sh.list)
  }

  /** With MaclimitAtomic.ExactList: no terminal is ever listed twice exactly when
      packet hooks are not interrupted. */
  lemma DistinctExactly(n: nat, m: nat)
    ensures AlwaysDistinct(n, m) <==> n == 0
  {
    if n == 0 {
      forall acts ensures DistinctMacs(Run(Init(0, m, false), acts).sh.list) {
        MaclimitAtomic.ExactList(m, false, acts);
      }
    } else {
      DuplicateReachable(n, m);
      var acts :| NoWhole(acts) && Run(Init(n, m, false), acts).sh.list == [Terminal(0), Terminal(0)];
      var list := Run(Init(n, m, false), acts).sh.list;
      assert list[0].mac == list[1].mac;
    }
  }
}
