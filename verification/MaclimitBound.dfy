/** How far the list can overshoot the configured limit: with N split packet
    hook contexts it never exceeds the largest limit configured so far by more
    than N, and without any it never exceeds it. */
module MaclimitBound {
  import opened Maclimit
  import opened MaclimitMachine

  /** A context that may still post ADD_IMMEDIATE if the limit were t. */
  predicate Holds(pc: HookPc, t: int) {
    match pc
    case Counted(_, n) => n < t
    case Chosen(_, mode) => mode == AddImmediate
    case Posting(_, mode, _) => mode == AddImmediate
    case _ => false
  }

  function Holding(hooks: seq<HookPc>, t: int): nat {
    if hooks == [] then 0 else (if Holds(hooks[0], t) then 1 else 0) + Holding(hooks[1..], t)
  }

  /** An addition the thread has taken on, or will when it next reads the flag. */
  function Pending(s: State): nat {
    if s.pc.ImmAlloc? || s.pc.ImmLink? then 1
    else if s.sh.flag == AddImmediate && (s.pc.Start? || s.pc.Gap? || s.pc.Sched?) then 1
    else 0
  }

  function Measure(s: State, t: int): nat {
    |s.sh.list| + Pending(s) + Holding(s.hooks, t)
  }

  /** Quantified over every limit from the highest on, because a later
      configuration can turn a snapshot that was "full" into one that is not. */
  ghost predicate Inv(s: State) {
    s.sh.limit <= s.high && forall t :: s.high <= t ==> Measure(s, t) <= t + |s.hooks|
  }

  lemma {:induction false} HoldingUpdate(hooks: seq<HookPc>, i: nat, pc: HookPc, t: int)
    requires i < |hooks|
    ensures Holding(hooks[i := pc], t) - (if Holds(pc, t) then 1 else 0)
         == Holding(hooks, t) - (if Holds(hooks[i], t) then 1 else 0)
    ensures Holding(hooks, t) <= |hooks|
  {
    HoldingAtMost(hooks, t);
    if i > 0 {
      assert hooks[i := pc][1..] == hooks[1..][i - 1 := pc];
      HoldingUpdate(hooks[1..], i - 1, pc, t);
    } else {
      assert hooks[0 := pc][1..] == hooks[1..];
    }
  }

  lemma HoldingAtMost(hooks: seq<HookPc>, t: int)
    ensures Holding(hooks, t) <= |hooks|
  {}

  /** A step that only reads: a snapshot below t is taken while the list is below t. */
  lemma LocalMeasure(s: State, i: nat, p: Packet, lock: bool, t: int)
    requires s.sh.limit <= t && i < |s.hooks| && !s.hooks[i].Posting? && !s.hooks[i].Waking?
    requires Measure(s, t) <= t + |s.hooks|
    ensures Measure(HookStep(s, i, p, lock), t) <= t + |s.hooks|
  {
    var pc' := HookLocal(s.sh, s.hooks[i], p, lock);
    assert HookStep(s, i, p, lock) == s.(hooks := s.hooks[i := pc']);
    HoldingUpdate(s.hooks, i, pc', t);
    HoldingAtMost(s.hooks[i := pc'], t);
    assert Holds(pc', t) && !Holds(s.hooks[i], t) ==> s.hooks[i].Entered? && |s.sh.list| < t;
  }

  lemma HookMeasure(s: State, i: nat, p: Packet, lock: bool, t: int)
    requires s.sh.limit <= t && i < |s.hooks|
    requires Measure(s, t) <= t + |s.hooks|
    ensures Measure(HookStep(s, i, p, lock), t) <= t + |s.hooks|
  {
    if s.hooks[i].Posting? || s.hooks[i].Waking? {
      var s' := HookStep(s, i, p, lock);
      var pc' := s'.hooks[i];
      assert s'.hooks == s.hooks[i := pc'];
      HoldingUpdate(s.hooks, i, pc', t);
      assert Pending(s') + (if Holds(pc', t) then 1 else 0)
          <= Pending(s) + (if Holds(s.hooks[i], t) then 1 else 0);
    } else {
      LocalMeasure(s, i, p, lock, t);
    }
  }

  lemma ThreadMeasure(s: State, ok: bool, ok2: bool, t: int)
    ensures Measure(ThreadStep(s, ok, ok2), t) <= Measure(s, t)
  {
    assert ThreadStep(s, ok, ok2).hooks == s.hooks;
  }

  lemma OtherMeasure(s: State, a: Action, t: int)
    requires !a.Hook? && !a.Thread? && s.sh.limit <= t
    requires Measure(s, t) <= t + |s.hooks|
    ensures Measure(Step(s, a), t) <= t + |s.hooks|
  {
    HoldingAtMost(s.hooks, t);
    assert Step(s, a).hooks == s.hooks;
  }

  lemma StepKeeps(s: State, a: Action)
    requires Inv(s)
    ensures Inv(Step(s, a)) && |Step(s, a).hooks| == |s.hooks|
  {
    var s' := Step(s, a);
    StepFrame(s, a);
    forall t | s'.high <= t ensures Measure(s', t) <= t + |s'.hooks| {
      assert Measure(s, t) <= t + |s.hooks|;
      if s.gone {
      } else if a.Hook? {
        if a.i < |s.hooks| { HookMeasure(s, a.i, a.p, a.lock, t); }
      } else if a.Thread? {
        ThreadMeasure(s, a.ok, a.ok2, t);
      } else {
        OtherMeasure(s, a, t);
      }
    }
  }

  lemma StepFrame(s: State, a: Action)
    ensures var s' := Step(s, a); |s'.hooks| == |s.hooks| && s.high <= s'.high
    ensures s.sh.limit <= s.high ==> Step(s, a).sh.limit <= Step(s, a).high
  {}

  lemma NoneHolding(n: nat, t: int)
    ensures Holding(seq(n, _ => Idle), t) == 0
  {
    if n > 0 {
      assert seq<HookPc>(n, _ => Idle)[1..] == seq(n - 1, _ => Idle);
      NoneHolding(n - 1, t);
    }
  }

  /** The measure over a whole run, from which the bound follows. */
  lemma {:induction false} RunKeeps(n: nat, m: nat, merged: bool, acts: seq<Action>)
    ensures var s := Run(Init(n, m, merged), acts); Inv(s) && |s.hooks| == n
    decreases |acts|
  {
    if acts == [] {
      var s := Init(n, m, merged);
      forall t | s.high <= t ensures Measure(s, t) <= t + |s.hooks| {
        NoneHolding(n, t);
      }
    } else {
      RunKeeps(n, m, merged, acts[..|acts| - 1]);
      StepKeeps(Run(Init(n, m, merged), acts[..|acts| - 1]), acts[|acts| - 1]);
    }
  }

  /** For every interleaving of n split packet hooks, any number of
      uninterrupted ones, m ARP hooks, the thread and reconfiguration. */
  lemma LengthBound(n: nat, m: nat, merged: bool, acts: seq<Action>)
    ensures var s := Run(Init(n, m, merged), acts);
            |s.sh.list| <= s.high + n && s.sh.limit <= s.high
  {
    RunKeeps(n, m, merged, acts);
    var s := Run(Init(n, m, merged), acts);
    assert Measure(s, s.high) <= s.high + |s.hooks|;
  }
}
