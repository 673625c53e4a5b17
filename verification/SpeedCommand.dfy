/** Commands and sender threads. A command sets both directions' enable, stops
    the senders that run and starts a sender for every direction still enabled;
    a sender that ends clears its task and then its enable. Steps are single
    accesses to these fields, interleaved at will; one command runs at a time. */
module SpeedCommand {

  datatype SenderPc =
    | Created    // not yet woken
    | Running
    | Nulled     // past line 490, its task cleared
    | Ended      // past line 491, its enable cleared

  /** A direction's fields: enable, task as the index of a sender or -1 for NULL,
      and the senders ever created for it. */
  datatype Dir = Dir(enable: bool, task: int, senders: seq<SenderPc>)

  datatype CommandPc =
    | Idle
    | Parse(d: nat)              // line 593
    | StopCheck(d: nat)          // line 559
    | Stopping(d: nat, i: nat)   // line 562, waiting for sender i to end
    | Start(d: nat)              // line 611
    | Hook                       // lines 635 to 646
    | Wake(d: nat)               // lines 573 and 574
    | Crashed                    // line 574 given NULL

  /** For the statements: what this command asked for, the directions it found
      with a sender to stop and those it created a sender for. */
  datatype State = State(zero: Dir, one: Dir, cmd: CommandPc, ask: bool, stopped: set<nat>, made: set<nat>)
  {
    function Get(d: nat): Dir { if d == 0 then zero else one }

    function Set(d: nat, x: Dir): State { if d == 0 then this.(zero := x) else this.(one := x) }
  }

  datatype Action = Command(enable: bool) | CommandStep | SenderStep(d: nat, i: nat)

  function Init(): State {
    State(Dir(false, -1, []), Dir(false, -1, []), Idle, false, {}, {})
  }

  function CreateSender(x: Dir): Dir {
    Dir(x.enable, |x.senders|, x.senders + [Created])
  }

  /** start_allspeedtest_task for one direction. */
  function WakeSender(s: State, d: nat): State {
    var x := s.Get(d);
    if x.task < 0 then s.(cmd := Crashed)
    else
      var y := if x.task < |x.senders| then x.(senders := x.senders[x.task := Running]) else x;
      s.Set(d, y).(cmd := if d == 0 then Wake(1) else Idle)
  }

  function StartSender(s: State, d: nat): State {
    var made := if s.Get(d).enable then s.made + {d} else s.made;
    var t := if s.Get(d).enable then s.Set(d, CreateSender(s.Get(d))) else s;
    t.(made := made, cmd := if d == 0 then Start(1) else if made == {} then Idle else Hook)
  }

  function CommandNext(s: State): State {
    match s.cmd
    case Idle => s
    case Parse(d) =>
      s.Set(d, s.Get(d).(enable := s.ask)).(cmd := if d == 0 then Parse(1) else StopCheck(0))
    case StopCheck(d) =>
      if s.Get(d).task >= 0 then s.(cmd := Stopping(d, s.Get(d).task), stopped := s.stopped + {d})
      else s.(cmd := if d == 0 then StopCheck(1) else Start(0))
    case Stopping(d, i) =>
      if i < |s.Get(d).senders| && s.Get(d).senders[i].Ended? then s.(cmd := StopCheck(d)) else s
    case Start(d) => StartSender(s, d)
    case Hook => s.(cmd := Wake(0))
    case Wake(d) => WakeSender(s, d)
    case Crashed => s
  }

  /** A sender ends by its duration or because it was told to. */
  function SenderNext(x: Dir, i: nat): Dir {
    if i >= |x.senders| then x
    else match x.senders[i]
      case Running => Dir(x.enable, -1, x.senders[i := Nulled])
      case Nulled => Dir(false, x.task, x.senders[i := Ended])
      case _ => x
  }

  function Step(s: State, a: Action): State {
    match a
    case Command(enable) =>
      if s.cmd.Idle? then s.(cmd := Parse(0), ask := enable, stopped := {}, made := {}) else s
    case CommandStep => CommandNext(s)
    case SenderStep(d, i) => if d < 2 then s.Set(d, SenderNext(s.Get(d), i)) else s
  }

  function Run(s: State, acts: seq<Action>): State
    decreases |acts|
  {
    if acts == [] then s else Step(Run(s, acts[..|acts| - 1]), acts[|acts| - 1])
  }

  // ----- what every run keeps

  /** The sender the task names is the only one that has not cleared it. */
  predicate OneTask(x: Dir) {
    && -1 <= x.task < |x.senders|
    && forall i :: 0 <= i < |x.senders| ==> ((x.senders[i].Created? || x.senders[i].Running?) <==> i == x.task)
  }

  /** Whether the command has decided about direction d's sender, and not woken it. */
  predicate Decided(cmd: CommandPc, d: nat) {
    match cmd
    case Start(e) => d < e
    case Hook => true
    case Wake(e) => d >= e
    case _ => false
  }

  /** The stop loop is through with direction d, its new sender not yet decided. */
  predicate Cleared(cmd: CommandPc, d: nat) {
    match cmd
    case StopCheck(e) => d < e
    case Stopping(e, _) => d < e
    case Start(e) => d >= e
    case _ => false
  }

  /** Past line 593 for direction d, and not past line 611. */
  predicate InWindow(cmd: CommandPc, d: nat) {
    match cmd
    case Parse(e) => d < e
    case StopCheck(_) => true
    case Stopping(_, _) => true
    case Start(e) => d >= e
    case _ => false
  }

  predicate DirInv(s: State, d: nat) {
    var x := s.Get(d);
    && OneTask(x)
    && (Cleared(s.cmd, d) ==> x.task < 0)
    && (x.task >= 0 && x.senders[x.task].Created? ==> Decided(s.cmd, d) || s.cmd.Crashed?)
    && (Decided(s.cmd, d) ==> (x.task >= 0 <==> d in s.made))
    && (Decided(s.cmd, d) && x.task >= 0 ==> x.senders[x.task].Created?)
    && (InWindow(s.cmd, d) ==> d !in s.made)
    && (s.cmd.Stopping? && s.cmd.d == d ==>
          d in s.stopped && s.cmd.i < |x.senders| && !x.senders[s.cmd.i].Created? &&
          (x.senders[s.cmd.i].Ended? ==> !x.enable))
    && (d in s.stopped && InWindow(s.cmd, d) && !(s.cmd.Stopping? && s.cmd.d == d) ==> !x.enable)
    && (d in s.stopped && !InWindow(s.cmd, d) ==> d !in s.made)
  }

  const BOTH: set<nat> := {0, 1}

  /** Whom the command has created senders for, by where it stands. */
  predicate MadeInv(s: State) {
    s.made <= BOTH && s.stopped <= BOTH && match s.cmd
    case Idle => s.made == {} || s.made == BOTH
    case Parse(e) => s.made == {} && s.stopped == {} && e < 2
    case StopCheck(e) => s.made == {} && e < 2
    case Stopping(e, _) => s.made == {} && e < 2
    case Start(e) => e < 2
    case Hook => s.made != {}
    case Wake(e) => e < 2 && s.made != {} && (e == 1 ==> 0 in s.made)
    case Crashed => s.made != {} && s.made != BOTH
  }

  predicate Inv(s: State) {
    DirInv(s, 0) && DirInv(s, 1) && MadeInv(s)
  }

  lemma SenderTask(x: Dir, i: nat)
    requires OneTask(x)
    ensures OneTask(SenderNext(x, i))
  {}

  lemma SenderKeeps(s: State, d: nat, i: nat, e: nat)
    requires Inv(s) && d < 2 && e < 2
    ensures DirInv(Step(s, SenderStep(d, i)), e)
  {
    var t := Step(s, SenderStep(d, i));
    assert DirInv(s, e) && DirInv(s, d) && t.cmd == s.cmd && t.made == s.made && t.stopped == s.stopped;
    SenderTask(s.Get(d), i);
    if e != d { assert t.Get(e) == s.Get(e); }
  }

  lemma StopKeeps(s: State, e: nat)
    requires Inv(s) && e < 2 && (s.cmd.StopCheck? || s.cmd.Stopping?)
    ensures DirInv(CommandNext(s), e)
  {}

  lemma StartKeeps(s: State, e: nat)
    requires Inv(s) && e < 2 && s.cmd.Start?
    ensures DirInv(CommandNext(s), e)
  {}

  lemma WakeKeeps(s: State, e: nat)
    requires Inv(s) && e < 2 && s.cmd.Wake?
    ensures DirInv(CommandNext(s), e)
  {}

  lemma CommandDirKeeps(s: State, e: nat)
    requires Inv(s) && e < 2
    ensures DirInv(CommandNext(s), e)
  {
    match s.cmd
    case StopCheck(_) => StopKeeps(s, e);
    case Stopping(_, _) => StopKeeps(s, e);
    case Start(_) => StartKeeps(s, e);
    case Wake(_) => WakeKeeps(s, e);
    case _ =>
  }

  lemma CommandMadeKeeps(s: State)
    requires Inv(s)
    ensures MadeInv(CommandNext(s))
  {
    if s.cmd == Wake(1) && s.Get(1).task >= 0 { assert s.made == BOTH; }
  }

  lemma StepKeeps(s: State, a: Action)
    requires Inv(s)
    ensures Inv(Step(s, a))
  {
    match a
    case Command(_) =>
    case CommandStep =>
      CommandDirKeeps(s, 0);
      CommandDirKeeps(s, 1);
      CommandMadeKeeps(s);
    case SenderStep(d, i) =>
      if d < 2 {
        SenderKeeps(s, d, i, 0);
        SenderKeeps(s, d, i, 1);
      }
  }

  lemma {:induction false} RunKeeps(acts: seq<Action>)
    ensures Inv(Run(Init(), acts))
    decreases |acts|
  {
    if acts != [] {
      RunKeeps(acts[..|acts| - 1]);
      StepKeeps(Run(Init(), acts[..|acts| - 1]), acts[|acts| - 1]);
    }
  }

  ghost predicate Reached(s: State) {
    exists acts :: Run(Init(), acts) == s
  }

  lemma ReachedInv(s: State)
    requires Reached(s)
    ensures Inv(s)
  {
    var acts :| Run(Init(), acts) == s;
    RunKeeps(acts);
  }

  // ----- which directions get a sender

  /** The action is line 491 of some sender of direction d. */
  predicate Clears(s: State, a: Action, d: nat) {
    a.SenderStep? && a.d == d && d < 2 && a.i < |s.Get(d).senders| && s.Get(d).senders[a.i].Nulled?
  }

  /** Some sender of direction d runs line 491 in the course of these actions. */
  predicate ClearsDuring(s: State, acts: seq<Action>, d: nat)
    decreases |acts|
  {
    acts != [] &&
    (Clears(Run(s, acts[..|acts| - 1]), acts[|acts| - 1], d) || ClearsDuring(s, acts[..|acts| - 1], d))
  }

  /** The command stays between line 593 and line 611 for direction d. */
  predicate StaysInWindow(s: State, acts: seq<Action>, d: nat)
    decreases |acts|
  {
    InWindow(Run(s, acts).cmd, d) && (acts != [] ==> StaysInWindow(s, acts[..|acts| - 1], d))
  }

  lemma EnableStep(s: State, a: Action, d: nat)
    requires Inv(s) && d < 2 && InWindow(s.cmd, d) && InWindow(Step(s, a).cmd, d)
    ensures Step(s, a).Get(d).enable == (s.Get(d).enable && !Clears(s, a, d)) && Step(s, a).ask == s.ask
  {}

  lemma WindowBefore(s: State, acts: seq<Action>, d: nat)
    requires StaysInWindow(s, acts, d) && acts != []
    ensures InWindow(Run(s, acts[..|acts| - 1]).cmd, d)
  {}

  lemma {:induction false} EnableDuring(s: State, acts: seq<Action>, d: nat)
    requires Inv(s) && d < 2 && StaysInWindow(s, acts, d)
    ensures var t := Run(s, acts);
            t.Get(d).enable == (s.Get(d).enable && !ClearsDuring(s, acts, d)) && t.ask == s.ask
    decreases |acts|
  {
    if acts != [] {
      EnableDuring(s, acts[..|acts| - 1], d);
      WindowInv(s, acts[..|acts| - 1]);
      WindowBefore(s, acts, d);
      EnableStep(Run(s, acts[..|acts| - 1]), acts[|acts| - 1], d);
    }
  }

  /** From line 593 to line 611 of a command: direction d gets a sender exactly
      when the command asks for it and no sender of d runs line 491 in between. */
  lemma StartedExactly(s: State, acts: seq<Action>, d: nat)
    requires Reached(s) && d < 2 && s.cmd == Parse(d)
    requires var t := Step(s, CommandStep); StaysInWindow(t, acts, d) && Run(t, acts).cmd == Start(d)
    ensures var t := Step(s, CommandStep);
            var u := Step(Run(t, acts), CommandStep);
            d in u.made <==> s.ask && !ClearsDuring(t, acts, d)
  {
    var t := Step(s, CommandStep);
    ReachedInv(s);
    StepKeeps(s, CommandStep);
    EnableDuring(t, acts, d);
    WindowInv(t, acts);
    assert d !in Run(t, acts).made;
  }

  lemma {:induction false} WindowInv(s: State, acts: seq<Action>)
    requires Inv(s)
    ensures Inv(Run(s, acts))
    decreases |acts|
  {
    if acts != [] {
      WindowInv(s, acts[..|acts| - 1]);
      StepKeeps(Run(s, acts[..|acts| - 1]), acts[|acts| - 1]);
    }
  }

  /** A direction whose sender the command had to stop is never started again by
      that command. */
  lemma StoppedNotStarted(s: State, d: nat)
    requires Reached(s) && d < 2 && d in s.stopped
    ensures d !in s.made
  {
    ReachedInv(s);
  }

  // ----- line 574

  /** A command ends in line 574 on a NULL task exactly when it has created a
      sender for one direction and not for the other. */
  lemma CrashesExactly(s: State)
    requires Reached(s) && s.made != {} && (s.cmd.Idle? || s.cmd.Crashed?)
    ensures s.cmd.Crashed? <==> s.made != BOTH
  {
    ReachedInv(s);
  }

  /** And it does meet NULL there, for the direction it created none for. */
  lemma NullExactly(s: State, d: nat)
    requires Reached(s) && d < 2 && s.cmd == Wake(d)
    ensures s.Get(d).task < 0 <==> d !in s.made
    ensures CommandNext(s).cmd.Crashed? <==> d !in s.made
  {
    ReachedInv(s);
  }

  // ----- runs that show it

  lemma Then(s: State, a: Action, t: State)
    requires Reached(s) && Step(s, a) == t
    ensures Reached(t)
  {
    var acts :| Run(Init(), acts) == s;
    assert (acts + [a])[..|acts|] == acts;
    assert Run(Init(), acts + [a]) == t;
  }

  const NEW := Dir(true, -1, [])
  const READY := Dir(true, 0, [Created])
  const SENDING := Dir(true, 0, [Running])
  const ENDED := Dir(false, -1, [Ended])

  /** The command asks for both and finds none. */
  lemma FirstCreates() returns (s: State)
    ensures Reached(s) && s == State(READY, READY, Hook, true, {}, BOTH)
  {
    assert Run(Init(), []) == Init();
    var s1 := State(Dir(false, -1, []), Dir(false, -1, []), Parse(0), true, {}, {});
    var s2 := State(NEW, Dir(false, -1, []), Parse(1), true, {}, {});
    var s3 := State(NEW, NEW, StopCheck(0), true, {}, {});
    var s4 := s3.(cmd := StopCheck(1));
    var s5 := s3.(cmd := Start(0));
    var s6 := State(READY, NEW, Start(1), true, {}, {0});
    s := State(READY, READY, Hook, true, {}, BOTH);
    Then(Init(), Command(true), s1);
    Then(s1, CommandStep, s2);
    Then(s2, CommandStep, s3);
    Then(s3, CommandStep, s4);
    Then(s4, CommandStep, s5);
    Then(s5, CommandStep, s6);
    assert {0} + {1} == BOTH && BOTH != {};
    Then(s6, CommandStep, s);
  }

  /** A first command starts both directions. */
  lemma FirstRun() returns (s: State)
    ensures Reached(s) && s == State(SENDING, SENDING, Idle, true, {}, BOTH)
  {
    var s1 := FirstCreates();
    var s2 := s1.(cmd := Wake(0));
    var s3 := State(SENDING, READY, Wake(1), true, {}, BOTH);
    s := State(SENDING, SENDING, Idle, true, {}, BOTH);
    Then(s1, CommandStep, s2);
    Then(s2, CommandStep, s3);
    Then(s3, CommandStep, s);
  }

  /** A sender ends: its two lines. */
  lemma SenderEnds(s: State, d: nat) returns (t: State)
    requires Reached(s) && d < 2 && s.Get(d) == SENDING
    ensures Reached(t) && t == s.Set(d, ENDED)
  {
    var s1 := s.Set(d, Dir(true, -1, [Nulled]));
    t := s.Set(d, ENDED);
    Then(s, SenderStep(d, 0), s1);
    Then(s1, SenderStep(d, 0), t);
  }

  /** A second command finds both sending: it stops them. */
  lemma StopsBoth() returns (s: State)
    ensures Reached(s) && s == State(ENDED, ENDED, Start(0), true, BOTH, {})
  {
    var s0 := FirstRun();
    var s1 := s0.(cmd := Parse(0), made := {});
    var s2 := s1.(cmd := Parse(1));
    var s3 := s1.(cmd := StopCheck(0));
    var s4 := s1.(cmd := Stopping(0, 0), stopped := {0});
    Then(s0, Command(true), s1);
    Then(s1, CommandStep, s2);
    Then(s2, CommandStep, s3);
    assert {} + {0} == {0};
    Then(s3, CommandStep, s4);
    var s5 := SenderEnds(s4, 0);
    s := StopsSecond(s5);
  }

  lemma StopsSecond(s0: State) returns (s: State)
    requires Reached(s0) && s0 == State(ENDED, SENDING, Stopping(0, 0), true, {0}, {})
    ensures Reached(s) && s == State(ENDED, ENDED, Start(0), true, BOTH, {})
  {
    var s1 := s0.(cmd := StopCheck(0));
    var s2 := s0.(cmd := StopCheck(1));
    var s3 := s0.(cmd := Stopping(1, 0), stopped := BOTH);
    Then(s0, CommandStep, s1);
    Then(s1, CommandStep, s2);
    assert {0} + {1} == BOTH;
    Then(s2, CommandStep, s3);
    var s4 := SenderEnds(s3, 1);
    var s5 := s4.(cmd := StopCheck(1));
    s := s4.(cmd := Start(0));
    Then(s4, CommandStep, s5);
    Then(s5, CommandStep, s);
  }

  /** It has asked for both and starts nothing. */
  lemma StartsNothing()
    ensures exists s :: Reached(s) && s.cmd.Idle? && s.ask && s.stopped == BOTH && s.made == {}
  {
    var s1 := StopsBoth();
    var s2 := s1.(cmd := Start(1));
    var s3 := s1.(cmd := Idle);
    Then(s1, CommandStep, s2);
    Then(s2, CommandStep, s3);
  }

  /** One sender has ended, the other is found sending by a second command. */
  lemma StopsOne() returns (s: State)
    ensures Reached(s) && s == State(Dir(true, -1, [Ended]), ENDED, Stopping(1, 0), true, {1}, {})
  {
    var s0 := FirstRun();
    var s1 := SenderEnds(s0, 0);
    var s2 := s1.(cmd := Parse(0), made := {});
    var s3 := State(Dir(true, -1, [Ended]), SENDING, Parse(1), true, {}, {});
    var s4 := s3.(cmd := StopCheck(0));
    var s5 := s3.(cmd := StopCheck(1));
    var s6 := s3.(cmd := Stopping(1, 0), stopped := {1});
    Then(s1, Command(true), s2);
    Then(s2, CommandStep, s3);
    Then(s3, CommandStep, s4);
    Then(s4, CommandStep, s5);
    assert {} + {1} == {1};
    Then(s5, CommandStep, s6);
    s := SenderEnds(s6, 1);
  }

  /** It starts the other direction and hands line 574 the NULL task of this one. */
  lemma CrashReachable()
    ensures exists s :: Reached(s) && s.cmd.Crashed? && s.stopped == {1} && s.made == {0}
  {
    var s0 := StopsOne();
    var s1 := s0.(cmd := StopCheck(1));
    var s2 := s0.(cmd := Start(0));
    var s3 := State(Dir(true, 1, [Ended, Created]), ENDED, Start(1), true, {1}, {0});
    var s4 := s3.(cmd := Hook);
    var s5 := s3.(cmd := Wake(0));
    var s6 := State(Dir(true, 1, [Ended, Running]), ENDED, Wake(1), true, {1}, {0});
    Then(s0, CommandStep, s1);
    Then(s1, CommandStep, s2);
    assert {} + {0} == {0} != {};
    Then(s2, CommandStep, s3);
    Then(s3, CommandStep, s4);
    Then(s4, CommandStep, s5);
    Then(s5, CommandStep, s6);
    Then(s6, CommandStep, s6.(cmd := Crashed));
  }
}
