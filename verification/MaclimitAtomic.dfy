/** What the limiter guarantees exactly when packet hooks do not interrupt each
    other or the thread's reads: no duplicate entry, no pending duplicate, and
    a full list admits exactly its own MACs. */
module MaclimitAtomic {
  import opened Maclimit
  import opened MaclimitMachine
  import MaclimitBound

  /** The thread is acting on a request it read from the flag. */
  predicate Engaged(pc: ThreadPc) {
    !pc.Start? && !pc.Clear? && !pc.Gap? && !pc.Sched? && !pc.Exited?
  }

  predicate Pending(s: State) {
    Engaged(s.pc) || (AddRequest(s.sh.flag) && !s.pc.Clear? && !s.pc.Exited?)
  }

  ghost predicate Inv(s: State) {
    && DistinctMacs(s.sh.list)
    && (Engaged(s.pc) ==> s.sh.flag != NoAddTask)
    && (Pending(s) ==> !Listed(s.sh.list, s.sh.node.mac))
    && (s.pc.ImmLink? ==> s.pc.node == s.sh.node)
    && (s.pc.ReplLink? ==> s.pc.node == s.sh.node)
  }

  lemma ThreadKeeps(s: State, ok: bool, ok2: bool)
    requires Inv(s)
    ensures Inv(ThreadStep(s, ok, ok2))
  {
    var list' := ThreadStep(s, ok, ok2).sh.list;
    if s.pc.ImmLink? {
      assert forall k :: 0 < k < |list'| ==> list'[k] == s.sh.list[k - 1];
    }
  }

  lemma StepKeeps(s: State, a: Action)
    requires Inv(s) && s.hooks == []
    ensures Inv(Step(s, a)) && Step(s, a).hooks == []
  {
    if a.Thread? && !s.gone { ThreadKeeps(s, a.ok, a.ok2); }
  }

  lemma {:induction false} RunKeeps(m: nat, merged: bool, acts: seq<Action>)
    ensures var s := Run(Init(0, m, merged), acts); Inv(s) && s.hooks == []
    decreases |acts|
  {
    if acts != [] {
      RunKeeps(m, merged, acts[..|acts| - 1]);
      StepKeeps(Run(Init(0, m, merged), acts[..|acts| - 1]), acts[|acts| - 1]);
    }
  }

  /** Uninterrupted packet hooks, split ARP hooks, any interleaving with the thread. */
  lemma ExactList(m: nat, merged: bool, acts: seq<Action>)
    ensures var s := Run(Init(0, m, merged), acts);
            && |s.sh.list| <= s.high
            && DistinctMacs(s.sh.list)
            && (Pending(s) ==> !Listed(s.sh.list, s.sh.node.mac))
  {
    RunKeeps(m, merged, acts);
    MaclimitBound.LengthBound(0, m, merged, acts);
  }

  ghost function Admitted(sh: Shared): (macs: set<Mac>) {
    set mac: Mac | NetHook(sh, Packet(Node(0, mac, 0, 0), false, true), true).1 == Accept
  }

  function Macs(list: seq<Node>): set<Mac> {
    if list == [] then {} else {list[0].mac} + Macs(list[1..])
  }

  lemma ListedCons(list: seq<Node>, mac: Mac)
    requires list != []
    ensures Listed(list, mac) <==> list[0].mac == mac || Listed(list[1..], mac)
  {
    if Listed(list[1..], mac) {
      var k :| 0 <= k < |list[1..]| && list[1..][k].mac == mac;
      assert list[k + 1].mac == mac;
    }
    if Listed(list, mac) && list[0].mac != mac {
      var k :| 0 <= k < |list| && list[k].mac == mac;
      assert list[1..][k - 1].mac == mac;
    }
  }

  lemma {:induction false} MacIsListed(list: seq<Node>, mac: Mac)
    ensures mac in Macs(list) <==> Listed(list, mac)
  {
    if list != [] {
      MacIsListed(list[1..], mac);
      ListedCons(list, mac);
    }
  }

  lemma {:induction false} MacsCount(list: seq<Node>)
    requires DistinctMacs(list)
    ensures |Macs(list)| == |list|
  {
    if list != [] {
      var rest := list[1..];
      assert forall k :: 0 <= k < |rest| ==> rest[k].mac != list[0].mac;
      assert !Listed(rest, list[0].mac);
      MacIsListed(rest, list[0].mac);
      MacsCount(rest);
    }
  }

  lemma MacsAreListed(list: seq<Node>)
    ensures forall mac: Mac :: mac in Macs(list) <==> Listed(list, mac)
    ensures DistinctMacs(list) ==> |Macs(list)| == |list|
  {
    forall mac: Mac ensures mac in Macs(list) <==> Listed(list, mac) {
      MacIsListed(list, mac);
    }
    if DistinctMacs(list) { MacsCount(list); }
  }

  /** The purpose of the module: while limiting is on and the list is full, the
      terminals let through are as many as the list is long, so at most the
      largest limit configured. */
  lemma AtMostLimitAdmitted(m: nat, merged: bool, acts: seq<Action>)
    requires var sh := Run(Init(0, m, merged), acts).sh; sh.enable != 0 && |sh.list| >= sh.limit
    ensures var s := Run(Init(0, m, merged), acts);
            Admitted(s.sh) == Macs(s.sh.list) && |Admitted(s.sh)| == |s.sh.list| <= s.high
  {
    ExactList(m, merged, acts);
    var sh := Run(Init(0, m, merged), acts).sh;
    MacsAreListed(sh.list);
    assert Admitted(sh) == Macs(sh.list);
  }

  lemma {:induction false} MacsAtMost(list: seq<Node>)
    ensures |Macs(list)| <= |list|
  {
    if list != [] { MacsAtMost(list[1..]); }
  }

  /** What survives the race: with n interruptible hooks the terminals let
      through by a full list are its own, at most n more than the limit. */
  lemma OvershootAdmitted(n: nat, m: nat, merged: bool, acts: seq<Action>)
    requires var sh := Run(Init(n, m, merged), acts).sh; sh.enable != 0 && |sh.list| >= sh.limit
    ensures var s := Run(Init(n, m, merged), acts);
            Admitted(s.sh) == Macs(s.sh.list) && |Admitted(s.sh)| <= s.high + n
  {
    MaclimitBound.LengthBound(n, m, merged, acts);
    var sh := Run(Init(n, m, merged), acts).sh;
    MacsAreListed(sh.list);
    MacsAtMost(sh.list);
    assert Admitted(sh) == Macs(sh.list);
  }
}
