/** The receive hook across commands. A command points it at the fast path and
    then stops the previous compute thread, whose exit points it back at the
    probe path; which of the two a new run is left with depends on how far the
    previous thread had come. A command here is one that has created a sender;
    SpeedCommand says when it does. */
module SpeedRxHook {

  /** A compute thread between its shared accesses. */
  datatype ThreadPc =
    | Created      // not yet woken
    | Looping
    | Leaving      // out of the loop, compute_task still set
    | Nulled       // compute_task cleared, hook not yet put back
    | Restored     // hook put back
    | Gone

  datatype CommandPc =
    | Ready
    | SetHook            // before the hook is set to the fast path
    | Check              // while (compute_task)
    | Stopping(t: nat)   // in kthread_stop, waiting for thread t to end
    | Create
    | Wake

  /** Compute threads in creation order; `task` is compute_task, -1 for NULL.
      For the statements: whether, when the hook was last set to the fast path,
      some thread had still to put it back, how many threads there were then,
      and whether the command since had to stop one. */
  datatype State = State(threads: seq<ThreadPc>, task: int, fast: bool, cmd: CommandPc,
                         stale: bool, older: nat, stopped: bool)

  datatype Action = Command | CommandStep | ThreadStep(i: nat)

  predicate Passed(pc: ThreadPc) { pc.Restored? || pc.Gone? }

  predicate AllPassed(threads: seq<ThreadPc>, n: nat) {
    forall i :: 0 <= i < n && i < |threads| ==> Passed(threads[i])
  }

  function Init(): State {
    State([], -1, false, Ready, false, 0, false)
  }

  function CommandNext(s: State): State {
    match s.cmd
    case Ready => s
    case SetHook =>
      s.(fast := true, cmd := Check, stale := !AllPassed(s.threads, |s.threads|),
         older := |s.threads|, stopped := false)
    case Check => if s.task >= 0 then s.(cmd := Stopping(s.task), stopped := true) else s.(cmd := Create)
    case Stopping(t) => if t < |s.threads| && s.threads[t].Gone? then s.(cmd := Check) else s
    case Create => s.(threads := s.threads + [Created], task := |s.threads|, cmd := Wake)
    case Wake =>
      if 0 <= s.task < |s.threads| && s.threads[s.task].Created?
      then s.(threads := s.threads[s.task := Looping], cmd := Ready) else s.(cmd := Ready)
  }

  /** A thread may leave its loop at any time: told to stop, or out of grace. */
  function ThreadNext(s: State, i: nat): State
    requires i < |s.threads|
  {
    match s.threads[i]
    case Created => s
    case Looping => s.(threads := s.threads[i := Leaving])
    case Leaving => s.(threads := s.threads[i := Nulled], task := -1)
    case Nulled => s.(threads := s.threads[i := Restored], fast := false)
    case Restored => s.(threads := s.threads[i := Gone])
    case Gone => s
  }

  function Step(s: State, a: Action): State {
    match a
    case Command => if s.cmd.Ready? then s.(cmd := SetHook) else s
    case CommandStep => CommandNext(s)
    case ThreadStep(i) => if i < |s.threads| then ThreadNext(s, i) else s
  }

  function Run(s: State, acts: seq<Action>): State
    decreases |acts|
  {
    if acts == [] then s else Step(Run(s, acts[..|acts| - 1]), acts[|acts| - 1])
  }

  /** The thread compute_task names is the only one that has not cleared it. */
  predicate OneTask(s: State) {
    && -1 <= s.task < |s.threads|
    && (s.task >= 0 ==> s.task == |s.threads| - 1)
    && forall i :: 0 <= i < |s.threads| ==>
         ((s.threads[i].Created? || s.threads[i].Looping? || s.threads[i].Leaving?) <==> i == s.task)
  }

  /** Between commands, and up to a command's own hook write. */
  predicate Settled(s: State) { s.cmd.Ready? || s.cmd.SetHook? || s.cmd.Wake? }

  predicate Progress(s: State) {
    match s.cmd
    case Check => s.older == |s.threads|
    case Create => s.older == |s.threads| && s.task == -1
    case Stopping(t) => s.older == |s.threads| && t < |s.threads| && s.stopped
    case Wake => s.older + 1 == |s.threads| && 0 <= s.task < |s.threads| && s.threads[s.task].Created?
    case _ => s.threads == [] || s.older + 1 == |s.threads|
  }

  /** Some command has set the hook. */
  predicate Begun(s: State) {
    s.threads != [] || !(s.cmd.Ready? || s.cmd.SetHook?)
  }

  predicate HookInv(s: State) {
    && s.older <= |s.threads|
    && (s.stale ==> !s.fast || !AllPassed(s.threads, s.older))
    && (!s.stale ==> AllPassed(s.threads, s.older))
    && (!s.stale && Begun(s) ==> s.fast || (s.older < |s.threads| && Passed(s.threads[s.older])))
  }

  predicate StopInv(s: State) {
    s.stopped ==> s.stale && match s.cmd
      case Stopping(t) => t < |s.threads| && (Passed(s.threads[t]) ==> !s.fast)
      case _ => !s.fast
  }

  predicate Inv(s: State) { OneTask(s) && Progress(s) && HookInv(s) && StopInv(s) }

  lemma SamePassed(a: seq<ThreadPc>, b: seq<ThreadPc>, n: nat)
    requires n <= |a| && n <= |b| && forall i :: 0 <= i < n ==> Passed(a[i]) == Passed(b[i])
    ensures AllPassed(a, n) == AllPassed(b, n)
  {
    if !AllPassed(b, n) {
      var i :| 0 <= i < n && !Passed(b[i]);
      assert !Passed(a[i]);
    }
  }

  lemma CommandKeeps(s: State)
    requires Inv(s)
    ensures Inv(CommandNext(s))
  {
    var s' := CommandNext(s);
    assert OneTask(s') && Progress(s');
    if !s.cmd.SetHook? { SamePassed(s.threads, s'.threads, s.older); }
    assert HookInv(s');
    if s.cmd.Check? && s.task >= 0 {
      assert !Passed(s.threads[s.task]);
    }
  }

  lemma RestoreKeeps(s: State, i: nat)
    requires Inv(s) && i < |s.threads| && s.threads[i].Nulled?
    ensures Inv(ThreadNext(s, i))
  {
    var s' := ThreadNext(s, i);
    assert forall j :: 0 <= j < |s.threads| && Passed(s.threads[j]) ==> Passed(s'.threads[j]);
    assert !s.stale ==> i == s.older;
  }

  lemma AdvanceTask(s: State, i: nat)
    requires OneTask(s) && Progress(s) && i < |s.threads| && !s.threads[i].Nulled?
    ensures OneTask(ThreadNext(s, i)) && Progress(ThreadNext(s, i))
  {}

  lemma AdvanceKeeps(s: State, i: nat)
    requires Inv(s) && i < |s.threads| && !s.threads[i].Nulled?
    ensures Inv(ThreadNext(s, i))
  {
    AdvanceTask(s, i);
    var s' := ThreadNext(s, i);
    assert s'.fast == s.fast && s'.cmd == s.cmd && s'.stopped == s.stopped;
    assert s'.stale == s.stale && s'.older == s.older;
    forall j | 0 <= j < |s.threads| ensures Passed(s.threads[j]) == Passed(s'.threads[j]) {
      assert j != i ==> s'.threads[j] == s.threads[j];
    }
    SamePassed(s.threads, s'.threads, s.older);
  }

  lemma {:induction false} RunKeeps(acts: seq<Action>)
    ensures Inv(Run(Init(), acts))
    decreases |acts|
  {
    if acts != [] {
      RunKeeps(acts[..|acts| - 1]);
      var s := Run(Init(), acts[..|acts| - 1]);
      match acts[|acts| - 1]
      case Command =>
      case CommandStep => CommandKeeps(s);
      case ThreadStep(i) =>
        if i < |s.threads| {
          if s.threads[i].Nulled? { RestoreKeeps(s, i); } else { AdvanceKeeps(s, i); }
        }
    }
  }

  ghost predicate Reached(s: State) {
    exists acts :: Run(Init(), acts) == s
  }

  lemma ReachedInv(s: State)
    requires Reached(s)
    ensures Inv(s)
  {
    var acts :| Run(Init(), acts) == s;
    RunKeeps(acts);
  }

  /** A run is under way: the latest thread has not yet put the hook back. */
  predicate Running(s: State) {
    s.threads != [] && Settled(s) && !Passed(s.threads[|s.threads| - 1])
  }

  /** If every earlier compute thread had put the hook back before the command
      set it, received packets take the fast path during the whole run. */
  lemma FastAllRun(s: State)
    requires Reached(s) && Running(s) && !s.stale
    ensures s.fast
  {
    ReachedInv(s);
  }

  /** And only then: once the earlier threads are through, the run has the fast
      path exactly when none of them was late. */
  lemma FastExactlyWhen(s: State)
    requires Reached(s) && Running(s) && AllPassed(s.threads, |s.threads| - 1)
    ensures s.fast <==> !s.stale
  {
    ReachedInv(s);
  }

  /** A command that finds a compute thread to stop always leaves its own run
      without the fast path. */
  lemma StoppingLosesFastPath(s: State)
    requires Reached(s) && Running(s) && s.stopped
    ensures !s.fast && s.stale
  {
    ReachedInv(s);
  }

  function Commands(acts: seq<Action>): nat {
    if acts == [] then 0 else Commands(acts[..|acts| - 1]) + if acts[|acts| - 1].Command? then 1 else 0
  }

  /** t follows s, with n commands in between. */
  ghost predicate Follows(s: State, t: State, n: nat) {
    exists acts :: Run(s, acts) == t && Commands(acts) == n
  }

  lemma Start(s: State)
    ensures Follows(s, s, 0)
  {
    assert Run(s, []) == s && Commands([]) == 0;
  }

  lemma Extend(s0: State, n: nat, s: State, a: Action) returns (t: State)
    requires Follows(s0, s, n)
    ensures t == Step(s, a) && Follows(s0, t, n + if a.Command? then 1 else 0)
  {
    t := Step(s, a);
    var acts :| Run(s0, acts) == s && Commands(acts) == n;
    assert (acts + [a])[..|acts + [a]| - 1] == acts;
    assert Run(s0, acts + [a]) == t && Commands(acts + [a]) == n + if a.Command? then 1 else 0;
  }

  lemma FirstCommand() returns (s: State)
    ensures Reached(s) && s == State([Looping], 0, true, Ready, false, 0, false)
  {
    var s0 := Init();
    Start(s0);
    s := Extend(s0, 0, s0, Command);
    s := Extend(s0, 1, s, CommandStep);
    s := Extend(s0, 1, s, CommandStep);
    s := Extend(s0, 1, s, CommandStep);
    s := Extend(s0, 1, s, CommandStep);
  }

  lemma ExitWhileStopped(s0: State, s1: State) returns (s: State)
    requires Follows(s0, s1, 1) && s1 == State([Looping], 0, true, Stopping(0), true, 1, true)
    ensures Follows(s0, s, 1) && s == State([Gone], -1, false, Stopping(0), true, 1, true)
  {
    s := Extend(s0, 1, s1, ThreadStep(0));
    s := Extend(s0, 1, s, ThreadStep(0));
    s := Extend(s0, 1, s, ThreadStep(0));
    s := Extend(s0, 1, s, ThreadStep(0));
  }

  /** The first run's compute thread is still looping. */
  lemma SecondCommand(first: State) returns (s: State)
    requires first == State([Looping], 0, true, Ready, false, 0, false)
    ensures Follows(first, s, 1) && s == State([Looping], 0, true, Stopping(0), true, 1, true)
  {
    Start(first);
    s := Extend(first, 0, first, Command);
    assert !Passed(s.threads[0]);
    s := Extend(first, 1, s, CommandStep);
    s := Extend(first, 1, s, CommandStep);
  }

  /** From a run with the fast path, one more such command is enough to reach a run
      without. */
  lemma SecondCommandLosesFastPath()
    ensures exists s, t :: Reached(s) && Running(s) && s.fast && Follows(s, t, 1) && Running(t) && !t.fast
  {
    var first := FirstCommand();
    var s := SecondCommand(first);
    s := ExitWhileStopped(first, s);
    s := Extend(first, 1, s, CommandStep);
    s := Extend(first, 1, s, CommandStep);
    s := Extend(first, 1, s, CommandStep);
    s := Extend(first, 1, s, CommandStep);
    assert Running(first) && Running(s) && !s.fast;
  }
}
