/** The compute thread as it runs against a schedule: what happens outside before
    each look into the fifo, which sender tasks each turn of its loop sees, the
    two clock readings of the turn and whether it was told to stop. Outside,
    packets arrive and the senders store their checksums and count what they
    send. The thread leaves at the first turn at which the senders have been gone
    for more than five seconds, and by then has counted every frame in order,
    each against the checksum in force at that moment. */
module SpeedCompute {
  import opened Checksum
  import opened SpeedPacket
  import opened SpeedStatus

  /** What happens outside: a packet comes in, line 438, line 464. */
  datatype Outside = Arrive(frame: Packet) | Store(d: nat, csum: word) | Bump(d: nat)

  /** `polls`: what happens before each look into the fifo in this turn. Looks the
      turn does not take have none. */
  datatype Turn = Turn(polls: seq<seq<Outside>>, task0: bool, task1: bool, setAt: nat, testedAt: nat, stop: bool)

  /** Turn k saw no sender task. */
  predicate Idle(turns: seq<Turn>, k: nat)
    requires k < |turns|
  {
    !turns[k].task0 && !turns[k].task1
  }

  /** First turn of the idle streak turn k belongs to. */
  function StreakStart(turns: seq<Turn>, k: nat): (i: nat)
    requires k < |turns|
    ensures i <= k
  {
    if k == 0 || !Idle(turns, k - 1) then k else StreakStart(turns, k - 1)
  }

  /** Turns i to k saw no sender, and the one before i did, or i is the first. */
  predicate IdleStreak(turns: seq<Turn>, i: nat, k: nat)
    requires i <= k < |turns|
  {
    (i > 0 ==> !Idle(turns, i - 1)) && forall j :: i <= j <= k ==> Idle(turns, j)
  }

  /** Turn k ends the loop. */
  predicate Leaves(turns: seq<Turn>, k: nat, hz: nat)
    requires k < |turns|
  {
    turns[k].stop || (Idle(turns, k) && turns[StreakStart(turns, k)].setAt + 5 * hz < turns[k].testedAt)
  }

  /** end_time when turn k begins: 0 unless the turn before saw no sender. */
  function Deadline(turns: seq<Turn>, k: nat, hz: nat): nat
    requires k <= |turns|
  {
    if k == 0 || !Idle(turns, k - 1) then 0 else turns[StreakStart(turns, k - 1)].setAt + 5 * hz
  }

  lemma {:induction false} StreakMeans(turns: seq<Turn>, k: nat)
    requires k < |turns| && Idle(turns, k)
    ensures IdleStreak(turns, StreakStart(turns, k), k)
  {
    if k > 0 && Idle(turns, k - 1) { StreakMeans(turns, k - 1); }
  }

  /** No turn before k ended it. */
  predicate NoneLeaves(turns: seq<Turn>, k: nat, hz: nat)
    requires k <= |turns|
  {
    forall j :: 0 <= j < k ==> !Leaves(turns, j, hz)
  }

  /** Turn k sees the senders gone for more than five seconds. */
  predicate GraceOver(turns: seq<Turn>, i: nat, k: nat, hz: nat)
    requires i <= k < |turns|
  {
    IdleStreak(turns, i, k) && turns[k].testedAt - turns[i].setAt > 5 * hz
  }

  ghost predicate GraceEnds(turns: seq<Turn>, k: nat, hz: nat)
    requires k < |turns|
  {
    exists i: nat :: i <= k && GraceOver(turns, i, k, hz)
  }

  lemma {:induction false} StreakUnique(turns: seq<Turn>, i: nat, k: nat)
    requires i <= k < |turns| && IdleStreak(turns, i, k)
    ensures StreakStart(turns, k) == i
  {
    if i < k { StreakUnique(turns, i, k - 1); }
  }

  /** The thread leaves at a turn exactly when it is told to stop, or the senders
      have been gone for more than five seconds. */
  lemma LeavesExactly(turns: seq<Turn>, k: nat, hz: nat)
    requires k < |turns|
    ensures Leaves(turns, k, hz) <==> turns[k].stop || GraceEnds(turns, k, hz)
  {
    if Leaves(turns, k, hz) && !turns[k].stop {
      StreakMeans(turns, k);
      assert GraceOver(turns, StreakStart(turns, k), k, hz);
    }
    if i: nat :| i <= k && GraceOver(turns, i, k, hz) {
      StreakUnique(turns, i, k);
    }
  }

  /** Leaving without a stop request means every check over more than five
      seconds of clock, from just after the last turn that saw a sender, saw none. */
  lemma GracePeriod(turns: seq<Turn>, k: nat, hz: nat)
    requires k < |turns| && Leaves(turns, k, hz) && !turns[k].stop
    ensures exists i: nat :: i <= k && IdleStreak(turns, i, k) && turns[k].testedAt - turns[i].setAt > 5 * hz
  {
    StreakMeans(turns, k);
  }

  // ----- what the thread does, as a log

  /** Events in the order they take effect. */
  datatype Event =
    | Out(o: Outside)
    | Take(frame: Packet)   // from the fifo, counted
    | Drop(frame: Packet)   // from the fifo, freed

  function Outs(os: seq<Outside>): seq<Event> {
    if os == [] then [] else [Out(os[0])] + Outs(os[1..])
  }

  function Arrived(e: Event): seq<Packet> {
    match e
    case Out(Arrive(f)) => [f]
    case _ => []
  }

  function Left(e: Event): seq<Packet> {
    match e
    case Take(f) => [f]
    case Drop(f) => [f]
    case _ => []
  }

  /** Packets that came in. */
  function Arrivals(log: seq<Event>): seq<Packet> {
    if log == [] then [] else Arrived(log[0]) + Arrivals(log[1..])
  }

  /** Packets that went out of the fifo, in order. */
  function Gone(log: seq<Event>): seq<Packet> {
    if log == [] then [] else Left(log[0]) + Gone(log[1..])
  }

  function Head(polls: seq<seq<Outside>>): seq<Outside> { if polls == [] then [] else polls[0] }

  function Tail(polls: seq<seq<Outside>>): seq<seq<Outside>> { if polls == [] then [] else polls[1..] }

  function Out1(frame: Packet, counting: bool): Event { if counting then Take(frame) else Drop(frame) }

  /** Looks into the fifo until it is empty, one packet taken or freed each time. */
  function Looks(fifo: seq<Packet>, polls: seq<seq<Outside>>, counting: bool): seq<Event>
    decreases |polls|, |fifo|
  {
    var outs := Outs(Head(polls));
    var now := fifo + Arrivals(outs);
    if now == [] then outs else (outs + [Out1(now[0], counting)]) + Looks(now[1..], Tail(polls), counting)
  }

  /** Of all that is looked through, `done` is done and this fifo remains. */
  predicate Remains(all: seq<Event>, done: seq<Event>, fifo: seq<Packet>, polls: seq<seq<Outside>>, counting: bool) {
    all == done + Looks(fifo, polls, counting)
  }

  lemma RemainsNext(all: seq<Event>, done: seq<Event>, fifo: seq<Packet>, polls: seq<seq<Outside>>, counting: bool)
    requires Remains(all, done, fifo, polls, counting)
    ensures var outs := Outs(Head(polls)); var now := fifo + Arrivals(outs);
      if now == [] then all == done + outs
      else Remains(all, done + (outs + [Out1(now[0], counting)]), now[1..], Tail(polls), counting) &&
           (polls == [] ==> |now[1..]| < |fifo|)
  {
    var outs := Outs(Head(polls));
    var now := fifo + Arrivals(outs);
    if now != [] {
      var one, later := outs + [Out1(now[0], counting)], Looks(now[1..], Tail(polls), counting);
      assert done + (one + later) == (done + one) + later;
    }
  }

  /** What is in the fifo when turn k begins. */
  function AtTurn(waiting: seq<Packet>, k: nat): seq<Packet> { if k == 0 then waiting else [] }

  /** The log of the first k turns, the fifo holding `waiting` at the start. */
  function TurnsLog(waiting: seq<Packet>, turns: seq<Turn>, k: nat): seq<Event>
    requires k <= |turns|
  {
    if k == 0 then []
    else TurnsLog(waiting, turns, k - 1) + Looks(AtTurn(waiting, k - 1), turns[k - 1].polls, true)
  }

  lemma Assoc(a: seq<Packet>, b: seq<Packet>, c: seq<Packet>)
    ensures (a + b) + c == a + (b + c)
  {}

  lemma {:induction false} ArrivalsAppend(a: seq<Event>, b: seq<Event>)
    ensures Arrivals(a + b) == Arrivals(a) + Arrivals(b) && Gone(a + b) == Gone(a) + Gone(b)
  {
    if a == [] {
      assert a + b == b;
    } else {
      assert (a + b)[1..] == a[1..] + b;
      ArrivalsAppend(a[1..], b);
      Assoc(Arrived(a[0]), Arrivals(a[1..]), Arrivals(b));
      Assoc(Left(a[0]), Gone(a[1..]), Gone(b));
    }
  }

  lemma {:induction false} OutsGone(os: seq<Outside>)
    ensures Gone(Outs(os)) == []
  {
    if os != [] {
      assert Outs(os)[1..] == Outs(os[1..]);
      OutsGone(os[1..]);
    }
  }

  // ----- what a log does to the counters

  function Effect(cs: Both, e: Event): Both {
    match e
    case Out(Store(d, csum)) => if d < 2 then cs.Set(d, cs.Get(d).(csum := csum)) else cs
    case Out(Bump(d)) => if d < 2 then cs.Set(d, cs.Get(d).(send := Inc(cs.Get(d).send))) else cs
    case Out(Arrive(_)) => cs
    case Take(f) => Tally(cs, f)
    case Drop(_) => cs
  }

  function Effects(cs: Both, log: seq<Event>): Both
    decreases |log|
  {
    if log == [] then cs else Effects(Effect(cs, log[0]), log[1..])
  }

  lemma {:induction false} EffectsAppend(cs: Both, a: seq<Event>, b: seq<Event>)
    ensures Effects(cs, a + b) == Effects(Effects(cs, a), b)
    decreases |a|
  {
    if a == [] {
      assert a + b == b;
    } else {
      assert (a + b)[1..] == a[1..] + b;
      EffectsAppend(Effect(cs, a[0]), a[1..], b);
    }
  }

  /** How often line 464 ran for direction d. */
  function Bumps(log: seq<Event>, d: nat): nat {
    if log == [] then 0 else Bumps(log[1..], d) + if log[0] == Out(Bump(d)) then 1 else 0
  }

  predicate Of(e: Event, d: nat) { e.Take? && Direction(e.frame) == d }

  /** How many packets counted belong to direction d. */
  function Belong(log: seq<Event>, d: nat): nat {
    if log == [] then 0 else Belong(log[1..], d) + if Of(log[0], d) then 1 else 0
  }

  /** The checksum in force for direction d after this event. */
  function InForce(e: Event, d: nat, csum: word): word {
    match e
    case Out(Store(x, c)) => if x == d then c else csum
    case _ => csum
  }

  function LastStored(log: seq<Event>, d: nat, csum: word): word {
    if log == [] then csum else LastStored(log[1..], d, InForce(log[0], d, csum))
  }

  /** How many of them differ from the checksum in force when they were taken. */
  function Damaged(log: seq<Event>, d: nat, csum: word): nat {
    if log == [] then 0
    else
      (if Of(log[0], d) && csum != ReceivedCsum(log[0].frame) then 1 else 0) +
      Damaged(log[1..], d, InForce(log[0], d, csum))
  }

  lemma IncWrap(a: int, n: nat)
    ensures Wrap(Inc(Wrap(a)) + n) == Wrap(a + (n + 1))
  {
    WrapSub(a + 1, n);
    WrapSub(a, 1);
  }

  /** One event, for direction d. */
  lemma EffectMeans(cs: Both, e: Event, d: nat)
    requires d < 2
    ensures var st := cs.Get(d);
      Effect(cs, e).Get(d) == st.(
        send := if e == Out(Bump(d)) then Inc(st.send) else st.send,
        rcv := if Of(e, d) then Inc(st.rcv) else st.rcv,
        err := if Of(e, d) && st.csum != ReceivedCsum(e.frame) then Inc(st.err) else st.err,
        csum := InForce(e, d, st.csum))
  {}

  /** Counters after so many more sent, received and damaged, modulo 2^64. */
  function Moved(st: Status, sent: nat, received: nat, damaged: nat, csum: word): Status {
    st.(send := Wrap(st.send + sent), rcv := Wrap(st.rcv + received), err := Wrap(st.err + damaged), csum := csum)
  }

  lemma MovedMore(st: Status, sent: bool, received: bool, damaged: bool, s: nat, r: nat, e: nat, now: word, csum: word)
    ensures var one := st.(send := if sent then Inc(st.send) else st.send, csum := now,
                           rcv := if received then Inc(st.rcv) else st.rcv,
                           err := if damaged then Inc(st.err) else st.err);
      Moved(one, s, r, e, csum) ==
      Moved(st, s + (if sent then 1 else 0), r + (if received then 1 else 0), (if damaged then 1 else 0) + e, csum)
  {
    CountUp(st.send, sent, s);
    CountUp(st.rcv, received, r);
    CountUp(st.err, damaged, e);
  }

  /** A whole log, for direction d. */
  lemma {:induction false} LogMeans(cs: Both, log: seq<Event>, d: nat)
    requires d < 2
    ensures Effects(cs, log).Get(d) ==
      Moved(cs.Get(d), Bumps(log, d), Belong(log, d), Damaged(log, d, cs.Get(d).csum),
            LastStored(log, d, cs.Get(d).csum))
    decreases |log|
  {
    var st := cs.Get(d);
    if log == [] {
      WrapSmall(st.send);
      WrapSmall(st.rcv);
      WrapSmall(st.err);
    } else {
      var e, rest := log[0], log[1..];
      var now := InForce(e, d, st.csum);
      EffectMeans(cs, e, d);
      LogMeans(Effect(cs, e), rest, d);
      MovedMore(st, e == Out(Bump(d)), Of(e, d), Of(e, d) && st.csum != ReceivedCsum(e.frame),
                Bumps(rest, d), Belong(rest, d), Damaged(rest, d, now), now, LastStored(rest, d, now));
    }
  }

  lemma CountUp(x: u64, b: bool, n: nat)
    ensures Wrap((if b then Inc(x) else x) + n) == Wrap(x + ((if b then 1 else 0) + n))
  {
    if b {
      IncWrap(x, n);
      WrapSmall(x);
    }
  }

  // ----- nothing that came in before is missed

  predicate NoTake(log: seq<Event>) { forall k :: 0 <= k < |log| ==> !log[k].Take? }

  predicate NoDrop(log: seq<Event>) { forall k :: 0 <= k < |log| ==> !log[k].Drop? }

  lemma {:induction false} OutsOnly(os: seq<Outside>)
    ensures NoTake(Outs(os)) && NoDrop(Outs(os))
  {
    if os != [] { OutsOnly(os[1..]); }
  }

  /** What leaves the fifo while it is looked through is what was in it and what
      came in meanwhile, in order; all of it is counted, or all of it freed. */
  lemma LooksMeans(fifo: seq<Packet>, polls: seq<seq<Outside>>, counting: bool)
    ensures fifo + Arrivals(Looks(fifo, polls, counting)) == Gone(Looks(fifo, polls, counting))
    ensures if counting then NoDrop(Looks(fifo, polls, counting)) else NoTake(Looks(fifo, polls, counting))
  {
    LooksEmpty(fifo, polls, counting);
    LooksOneWay(fifo, polls, counting);
  }

  lemma {:induction false} LooksOneWay(fifo: seq<Packet>, polls: seq<seq<Outside>>, counting: bool)
    ensures if counting then NoDrop(Looks(fifo, polls, counting)) else NoTake(Looks(fifo, polls, counting))
    decreases |polls|, |fifo|
  {
    var now := fifo + Arrivals(Outs(Head(polls)));
    OutsOnly(Head(polls));
    if now != [] { LooksOneWay(now[1..], Tail(polls), counting); }
  }

  lemma {:induction false} LooksEmpty(fifo: seq<Packet>, polls: seq<seq<Outside>>, counting: bool)
    ensures fifo + Arrivals(Looks(fifo, polls, counting)) == Gone(Looks(fifo, polls, counting))
    decreases |polls|, |fifo|
  {
    var outs := Outs(Head(polls));
    var now := fifo + Arrivals(outs);
    OutsGone(Head(polls));
    if now != [] {
      var later := Looks(now[1..], Tail(polls), counting);
      LooksEmpty(now[1..], Tail(polls), counting);
      LookThrough(fifo, outs, counting, later, now);
      assert Looks(fifo, polls, counting) == (outs + [Out1(now[0], counting)]) + later;
    }
  }

  lemma Regroup(fifo: seq<Packet>, came: seq<Packet>, now: seq<Packet>, later: seq<Packet>, gone: seq<Packet>)
    requires now == fifo + came && now != [] && now[1..] + later == gone
    ensures fifo + (came + later) == [now[0]] + gone
  {
    assert fifo + (came + later) == now + later;
    assert now + later == [now[0]] + (now[1..] + later);
  }

  lemma OneOut(frame: Packet, counting: bool)
    ensures Arrivals([Out1(frame, counting)]) == [] && Gone([Out1(frame, counting)]) == [frame]
  {
    assert [Out1(frame, counting)][1..] == [];
  }

  lemma LookThrough(fifo: seq<Packet>, outs: seq<Event>, counting: bool, later: seq<Event>, now: seq<Packet>)
    requires Gone(outs) == [] && now == fifo + Arrivals(outs) && now != []
    requires now[1..] + Arrivals(later) == Gone(later)
    ensures var log := (outs + [Out1(now[0], counting)]) + later; fifo + Arrivals(log) == Gone(log)
  {
    var one := [Out1(now[0], counting)];
    ArrivalsAppend(outs + one, later);
    ArrivalsAppend(outs, one);
    OneOut(now[0], counting);
    Regroup(fifo, Arrivals(outs), now, Arrivals(later), Gone(later));
    assert Arrivals(outs) + [] == Arrivals(outs) && [] + [now[0]] == [now[0]];
  }

  lemma Join(waiting: seq<Packet>, a: seq<Packet>, b: seq<Packet>, gone: seq<Packet>, now: seq<Packet>)
    requires waiting + a == gone && [] + b == now
    ensures waiting + (a + b) == gone + now
  {
    Assoc(waiting, a, b);
    assert [] + b == b;
  }

  lemma TurnMeans(waiting: seq<Packet>, before: seq<Event>, fifo: seq<Packet>, now: seq<Event>)
    requires if before == [] then fifo == waiting else fifo == [] && waiting + Arrivals(before) == Gone(before)
    requires fifo + Arrivals(now) == Gone(now)
    ensures waiting + Arrivals(before + now) == Gone(before + now)
  {
    if before == [] {
      assert before + now == now;
    } else {
      ArrivalsAppend(before, now);
      Join(waiting, Arrivals(before), Arrivals(now), Gone(before), Gone(now));
    }
  }

  lemma EmptyLogs(waiting: seq<Packet>, log: seq<Event>)
    requires log == [] && waiting + Arrivals(log) == Gone(log)
    ensures waiting == []
  {}

  lemma NoDropAppend(a: seq<Event>, b: seq<Event>)
    requires NoDrop(a) && NoDrop(b)
    ensures NoDrop(a + b)
  {}

  /** In k > 0 turns the thread counts, in order, what waited and what came in. */
  lemma {:induction false} TurnsMean(waiting: seq<Packet>, turns: seq<Turn>, k: nat)
    requires 0 < k <= |turns|
    ensures waiting + Arrivals(TurnsLog(waiting, turns, k)) == Gone(TurnsLog(waiting, turns, k))
    ensures NoDrop(TurnsLog(waiting, turns, k))
  {
    var before := TurnsLog(waiting, turns, k - 1);
    var fifo := AtTurn(waiting, k - 1);
    var now := Looks(fifo, turns[k - 1].polls, true);
    LooksMeans(fifo, turns[k - 1].polls, true);
    if k > 1 {
      TurnsMean(waiting, turns, k - 1);
      if before == [] { EmptyLogs(waiting, before); }
    }
    TurnMeans(waiting, before, fifo, now);
    NoDropAppend(before, now);
  }

  /** How many packets of these belong to direction d. */
  function Among(frames: seq<Packet>, d: nat): nat {
    if frames == [] then 0 else (if Direction(frames[0]) == d then 1 else 0) + Among(frames[1..], d)
  }

  lemma {:induction false} BelongAmong(log: seq<Event>, d: nat)
    requires NoDrop(log)
    ensures Belong(log, d) == Among(Gone(log), d)
  {
    if log != [] {
      BelongAmong(log[1..], d);
      if log[0].Take? {
        assert Gone(log)[1..] == Gone(log[1..]);
      } else {
        assert Gone(log) == Gone(log[1..]);
      }
    }
  }

  lemma {:induction false} NothingTaken(log: seq<Event>, rest: seq<Event>, d: nat, csum: word)
    requires NoTake(rest)
    ensures Belong(log + rest, d) == Belong(log, d) && Damaged(log + rest, d, csum) == Damaged(log, d, csum)
    decreases |log| + |rest|
  {
    if log != [] {
      assert (log + rest)[1..] == log[1..] + rest;
      NothingTaken(log[1..], rest, d, InForce(log[0], d, csum));
    } else if rest != [] {
      assert log + rest == rest && [] + rest[1..] == rest[1..];
      NothingTaken([], rest[1..], d, InForce(rest[0], d, csum));
    } else {
      assert log + rest == log;
    }
  }

  /** Everything the thread does when it leaves after k turns: it drains, and then
      `tail` happens outside before it computes the final figures. */
  function ThreadLog(waiting: seq<Packet>, turns: seq<Turn>, k: nat, drain: seq<seq<Outside>>, tail: seq<Outside>)
    : seq<Event>
    requires k <= |turns|
  {
    TurnsLog(waiting, turns, k) + (Looks([], drain, false) + Outs(tail))
  }

  function FinishAll(cs: Both): Both {
    Both(Finish(cs.zero), Finish(cs.one))
  }

  /** The final figures of direction d: what the senders counted until the end,
      every packet that waited or came in before the thread left its main loop,
      those of them that differed from the checksum in force when they were taken,
      and the loss from these. */
  lemma FinalFigures(cs: Both, waiting: seq<Packet>, turns: seq<Turn>, k: nat,
                     drain: seq<seq<Outside>>, tail: seq<Outside>, d: nat)
    requires 0 < k <= |turns| && d < 2
    ensures var log, counted := ThreadLog(waiting, turns, k, drain, tail), TurnsLog(waiting, turns, k);
      Figures(FinishAll(Effects(cs, log)).Get(d), cs.Get(d), Bumps(log, d),
              Among(waiting + Arrivals(counted), d), Damaged(counted, d, cs.Get(d).csum))
  {
    var log, counted := ThreadLog(waiting, turns, k, drain, tail), TurnsLog(waiting, turns, k);
    CountedOnly(waiting, turns, k, drain, tail, d, cs.Get(d).csum);
    LogFigures(cs, log, d);
  }

  /** Final figures from those at the start. */
  predicate Figures(st: Status, first: Status, sent: nat, received: nat, damaged: nat) {
    && st.send == Wrap(first.send + sent) && st.rcv == Wrap(first.rcv + received)
    && st.err == Wrap(first.err + damaged) && st.lose == Wrap(st.send - st.rcv - st.err) && st.finished
  }

  lemma LogFigures(cs: Both, log: seq<Event>, d: nat)
    requires d < 2
    ensures Figures(FinishAll(Effects(cs, log)).Get(d), cs.Get(d),
                    Bumps(log, d), Belong(log, d), Damaged(log, d, cs.Get(d).csum))
  {
    LogMeans(cs, log, d);
    FinishSide(Effects(cs, log), d);
  }

  lemma FinishSide(cs: Both, d: nat)
    requires d < 2
    ensures FinishAll(cs).Get(d) == Finish(cs.Get(d))
  {}

  /** Packets are counted in the main loop only. */
  lemma CountedOnly(waiting: seq<Packet>, turns: seq<Turn>, k: nat, drain: seq<seq<Outside>>, tail: seq<Outside>,
                    d: nat, csum: word)
    requires 0 < k <= |turns|
    ensures var log, counted := ThreadLog(waiting, turns, k, drain, tail), TurnsLog(waiting, turns, k);
      && Belong(log, d) == Among(waiting + Arrivals(counted), d)
      && Damaged(log, d, csum) == Damaged(counted, d, csum)
  {
    var counted := TurnsLog(waiting, turns, k);
    LooksMeans([], drain, false);
    OutsOnly(tail);
    NothingTaken(counted, Looks([], drain, false) + Outs(tail), d, csum);
    TurnsMean(waiting, turns, k);
    BelongAmong(counted, d);
  }

  /** After k turns: whether the last one ended the loop, and end_time. */
  predicate Control(turns: seq<Turn>, k: nat, left: bool, endTime: nat, hz: nat)
    requires k <= |turns|
  {
    && (left ==> k > 0 && Leaves(turns, k - 1, hz))
    && NoneLeaves(turns, if left && k > 0 then k - 1 else k, hz) && endTime == Deadline(turns, k, hz)
  }

  /** After k turns: the log so far, and what it made of counters and fifo. */
  predicate Counted(before: Both, waiting: seq<Packet>, turns: seq<Turn>, k: nat, log: seq<Event>,
                    status: Both, fifo: seq<Packet>)
    requires k <= |turns|
  {
    log == TurnsLog(waiting, turns, k) && status == Effects(before, log) && fifo == AtTurn(waiting, k)
  }

  /** One more received, and one more error if the checksum differs. */
  function CountedBy(st: Status, csum: word): Status {
    st.(rcv := Wrap(st.rcv + 1), err := if st.csum != csum then Wrap(st.err + 1) else st.err)
  }

  /** What leaving at the first turn that ends the loop comes to. */
  lemma LeftInTime(turns: seq<Turn>, left: bool, k: nat, hz: nat)
    requires k <= |turns| && (left ==> k > 0 && Leaves(turns, k - 1, hz)) && (!left ==> k == |turns|)
    requires NoneLeaves(turns, if left then k - 1 else k, hz)
    ensures left ==> turns[k - 1].stop || GraceEnds(turns, k - 1, hz)
    ensures forall j :: 0 <= j < |turns| && turns[j].stop ==> left && k <= j + 1
    ensures forall j :: 0 <= j < |turns| && GraceEnds(turns, j, hz) ==> left && k <= j + 1
  {
    if left { LeavesExactly(turns, k - 1, hz); }
    forall j | 0 <= j < |turns| && turns[j].stop ensures left && k <= j + 1 {
      LeavesExactly(turns, j, hz);
    }
    forall j | 0 <= j < |turns| && GraceEnds(turns, j, hz) ensures left && k <= j + 1 {
      LeavesExactly(turns, j, hz);
    }
  }

  class SpeedTest {
    var status: Both
    var fifo: seq<Packet>
    var computing: bool     // compute_task is set
    var fastHook: bool      // the receive hook is fast_rcv_speedtest_pkt

    constructor (cs: Both, waiting: seq<Packet>)
      ensures status == cs && fifo == waiting && computing && fastHook
    {
      status, fifo, computing, fastHook := cs, waiting, true, true;
    }

    /** What the senders and the receive hook do. */
    method Happens(os: seq<Outside>)
      modifies this`status, this`fifo
      ensures status == Effects(old(status), Outs(os)) && fifo == old(fifo) + Arrivals(Outs(os))
    {
      var i := 0;
      while i < |os|
        invariant 0 <= i <= |os|
        invariant Effects(status, Outs(os[i..])) == Effects(old(status), Outs(os))
        invariant fifo + Arrivals(Outs(os[i..])) == old(fifo) + Arrivals(Outs(os))
      {
        assert os[i..][1..] == os[i + 1..] && Outs(os[i..])[1..] == Outs(os[i + 1..]);
        match os[i] {
          case Arrive(f) => fifo := fifo + [f];
          case Store(d, csum) => if d < 2 { status := status.Set(d, status.Get(d).(csum := csum)); }
          case Bump(d) => if d < 2 { status := status.Set(d, status.Get(d).(send := Inc(status.Get(d).send))); }
        }
        i := i + 1;
      }
      assert os[i..] == [];
    }

    /** Lines 347-362: one frame, counted for the direction of its source address. */
    method CountOne(skb: Packet)
      modifies this`status
      ensures status == Tally(old(status), skb)
      ensures FromMac(skb, 0x10) ==>
        status == old(status).(zero := CountedBy(old(status.zero), Csum(skb[18..])))
      ensures FromMac(skb, 0x40) ==>
        status == old(status).(one := CountedBy(old(status.one), Csum(skb[18..])))
      ensures !FromMac(skb, 0x10) && !FromMac(skb, 0x40) ==> status == old(status)
    {
      DirectionMeans(skb);
      if skb[6..12] == ST0_MAC {
        status := status.(zero := status.zero.(rcv := Inc(status.zero.rcv)));
        if status.zero.csum != Csum(skb[18..]) {
          status := status.(zero := status.zero.(err := Inc(status.zero.err)));
        }
      } else if skb[6..12] == ST1_MAC {
        status := status.(one := status.one.(rcv := Inc(status.one.rcv)));
        if status.one.csum != Csum(skb[18..]) {
          status := status.(one := status.one.(err := Inc(status.one.err)));
        }
      }
    }

    /** One kfifo_out after what happened outside, and what is done with the frame. */
    method LookOnce(os: seq<Outside>, counting: bool) returns (got: bool, ghost log: seq<Event>)
      modifies this`status, this`fifo
      ensures var now := old(fifo) + Arrivals(Outs(os));
        && got == (now != []) && fifo == (if got then now[1..] else [])
        && log == if got then Outs(os) + [Out1(now[0], counting)] else Outs(os)
      ensures status == Effects(old(status), log)
    {
      Happens(os);
      log := Outs(os);
      got := fifo != [];
      if got {
        var skb := fifo[0];
        fifo := fifo[1..];
        ghost var e := Out1(skb, counting);
        EffectsAppend(old(status), Outs(os), [e]);
        assert [e][1..] == [];
        log := log + [e];
        if counting { CountOne(skb); }
      }
    }

    /** One turn of the loop, `done` before it and `all` the whole of it. */
    method LookNext(polls: seq<seq<Outside>>, counting: bool, ghost before: Both, ghost done: seq<Event>,
                    ghost all: seq<Event>)
      returns (more: bool, ghost log: seq<Event>)
      requires status == Effects(before, done) && Remains(all, done, fifo, polls, counting)
      modifies this`status, this`fifo
      ensures status == Effects(before, log)
      ensures if more then Remains(all, log, fifo, Tail(polls), counting) else all == log && fifo == []
      ensures more && polls == [] ==> |fifo| < |old(fifo)|
    {
      ghost var one;
      ghost var was := fifo;
      more, one := LookOnce(Head(polls), counting);
      EffectsAppend(before, done, one);
      RemainsNext(all, done, was, polls, counting);
      log := done + one;
    }

    /** Lines 345-367, and 391-394 when not counting: until the fifo is empty. */
    method LookAll(polls: seq<seq<Outside>>, counting: bool)
      modifies this`status, this`fifo
      ensures fifo == [] && status == Effects(old(status), Looks(old(fifo), polls, counting))
    {
      var rest := polls;
      ghost var log: seq<Event> := [];
      ghost var all := Looks(fifo, polls, counting);
      var more := true;
      while more
        invariant status == Effects(old(status), log)
        invariant if more then Remains(all, log, fifo, rest, counting) else all == log && fifo == []
        decreases more, |rest|, |fifo|
      {
        more, log := LookNext(rest, counting, old(status), log, all);
        rest := Tail(rest);
      }
    }

    /** Lines 369-388: look for sender tasks, keep the deadline, test it. */
    method CheckSenders(turns: seq<Turn>, k: nat, endTime: nat, hz: nat) returns (leave: bool, end: nat)
      requires k < |turns| && hz > 0 && endTime == Deadline(turns, k, hz) && NoneLeaves(turns, k, hz)
      ensures leave == Leaves(turns, k, hz) && end == Deadline(turns, k + 1, hz)
      ensures NoneLeaves(turns, if leave then k else k + 1, hz)
    {
      var running := false;
      end := endTime;
      if turns[k].task0 {
        running, end := true, 0;
      } else if turns[k].task1 {
        running, end := true, 0;
      }
      if !running && end == 0 {
        end := turns[k].setAt + 5 * hz;
      }
      leave := turns[k].stop || (!running && end < turns[k].testedAt);
    }

    /** Lines 345-367 in turn k, `log` before it. */
    method CountTurn(turns: seq<Turn>, k: nat, ghost before: Both, ghost waiting: seq<Packet>, ghost log: seq<Event>)
      returns (ghost log': seq<Event>)
      requires k < |turns| && Counted(before, waiting, turns, k, log, status, fifo)
      modifies this`status, this`fifo
      ensures Counted(before, waiting, turns, k + 1, log', status, fifo)
    {
      log' := log + Looks(fifo, turns[k].polls, true);
      EffectsAppend(before, log, Looks(fifo, turns[k].polls, true));
      LookAll(turns[k].polls, true);
    }

    /** Lines 345-388. */
    method OneTurn(turns: seq<Turn>, k: nat, endTime: nat, hz: nat,
                   ghost before: Both, ghost waiting: seq<Packet>, ghost log: seq<Event>)
      returns (leave: bool, end: nat, ghost log': seq<Event>)
      requires k < |turns| && hz > 0 && Control(turns, k, false, endTime, hz)
      requires Counted(before, waiting, turns, k, log, status, fifo)
      modifies this`status, this`fifo
      ensures Control(turns, k + 1, leave, end, hz)
      ensures Counted(before, waiting, turns, k + 1, log', status, fifo)
    {
      log' := CountTurn(turns, k, before, waiting, log);
      leave, end := CheckSenders(turns, k, endTime, hz);
    }

    /** Lines 343-390, over a prefix of the loop's turns; k counts those made. */
    method MainLoop(turns: seq<Turn>, hz: nat) returns (left: bool, k: nat, ghost log: seq<Event>)
      requires hz > 0
      modifies this`status, this`fifo
      ensures k <= |turns| && (left ==> k > 0 && Leaves(turns, k - 1, hz)) && (!left ==> k == |turns|)
      ensures NoneLeaves(turns, if left then k - 1 else k, hz)
      ensures Counted(old(status), old(fifo), turns, k, log, status, fifo)
    {
      var endTime: nat := 0;
      left, k, log := false, 0, [];
      while !left && k < |turns|
        invariant 0 <= k <= |turns| && Control(turns, k, left, endTime, hz)
        invariant Counted(old(status), old(fifo), turns, k, log, status, fifo)
      {
        left, endTime, log := OneTurn(turns, k, endTime, hz, old(status), old(fifo), log);
        k := k + 1;
      }
    }

    /** Lines 391-409; `tail` happens outside after the last look into the fifo. */
    method WindUp(drain: seq<seq<Outside>>, tail: seq<Outside>)
      requires fifo == []
      modifies this
      ensures fifo == Arrivals(Outs(tail)) && !computing && !fastHook
      ensures status == FinishAll(Effects(old(status), Looks([], drain, false) + Outs(tail)))
    {
      LookAll(drain, false);
      computing := false;
      Happens(tail);
      fastHook := false;
      EffectsAppend(old(status), Looks([], drain, false), Outs(tail));
      status := FinishAll(status);
    }

    /** `speedtest_compute_func` over a prefix of its turns. It leaves at the first
        turn that ends the loop; the log says what it and the others did by then. */
    method ComputeFunc(turns: seq<Turn>, drain: seq<seq<Outside>>, tail: seq<Outside>, hz: nat)
      returns (left: bool, k: nat)
      requires hz > 0 && computing
      modifies this
      ensures left == !computing && k <= |turns|
      ensures left ==> k > 0 && (turns[k - 1].stop || GraceEnds(turns, k - 1, hz))
      ensures forall j :: 0 <= j < |turns| && turns[j].stop ==> left && k <= j + 1
      ensures forall j :: 0 <= j < |turns| && GraceEnds(turns, j, hz) ==> left && k <= j + 1
      ensures left ==> k > 0 && Leaves(turns, k - 1, hz) && NoneLeaves(turns, k - 1, hz) && !fastHook
      ensures left ==> fifo == Arrivals(Outs(tail))
      ensures left ==> status == FinishAll(Effects(old(status), ThreadLog(old(fifo), turns, k, drain, tail)))
      ensures !left ==> k == |turns| && NoneLeaves(turns, k, hz) && fastHook == old(fastHook)
      ensures !left ==> fifo == AtTurn(old(fifo), k)
      ensures !left ==> status == Effects(old(status), TurnsLog(old(fifo), turns, k))
    {
      ghost var log;
      left, k, log := MainLoop(turns, hz);
      LeftInTime(turns, left, k, hz);
      if left {
        EffectsAppend(old(status), log, Looks([], drain, false) + Outs(tail));
        WindUp(drain, tail);
      }
    }
  }
}
