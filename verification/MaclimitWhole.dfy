/** The uninterrupted packet hook and the split one are the same code: a
    context that runs from idle to idle with nothing in between does what the
    single step does. */
module MaclimitWhole {
  import opened Maclimit
  import opened MaclimitMachine

  function Again(s: State, a: Action, k: nat): State
    decreases k
  {
    if k == 0 then s else Again(Step(s, a), a, k - 1)
  }

  lemma {:induction false} AgainAdd(s: State, a: Action, j: nat, k: nat)
    ensures Again(s, a, j + k) == Again(Again(s, a, j), a, k)
    decreases j
  {
    if j > 0 { AgainAdd(Step(s, a), a, j - 1, k); }
  }

  /** From the flag seen free: four field writes, the flag write, the wake-up. */
  lemma Writes(s: State, i: nat, q: Packet, mode: AddMode, lock: bool)
    requires !s.gone && i < |s.hooks| && s.hooks[i] == Posting(q, mode, 0)
    ensures Again(s, Hook(i, q, lock), 4)
         == s.(hooks := s.hooks[i := Posting(q, mode, 4)], sh := s.sh.(node := q.terminal))
  {
    var a := Hook(i, q, lock);
    var s1 := Step(s, a);
    var s2 := Step(s1, a);
    var s3 := Step(s2, a);
    var s4 := Step(s3, a);
    assert s4.sh.node == q.terminal && s4.hooks == s.hooks[i := Posting(q, mode, 4)];
    assert Again(s, a, 4) == Again(s1, a, 3);
    assert Again(s1, a, 3) == Again(s2, a, 2);
    assert Again(s2, a, 2) == Again(s3, a, 1);
    assert Again(s3, a, 1) == Again(s4, a, 0);
  }

  lemma Posts(s: State, i: nat, q: Packet, mode: AddMode, lock: bool)
    requires !s.gone && i < |s.hooks| && s.hooks[i] == Posting(q, mode, 0)
    ensures Again(s, Hook(i, q, lock), 5)
         == s.(hooks := s.hooks[i := Waking(mode)], sh := s.sh.(node := q.terminal, flag := mode),
               h := s.h.(posts := s.h.posts + [q.terminal]))
    ensures Again(s, Hook(i, q, lock), 6)
         == s.(hooks := s.hooks[i := Idle], sh := s.sh.(node := q.terminal, flag := mode),
               asleep := false, h := s.h.(posts := s.h.posts + [q.terminal]))
  {
    var a := Hook(i, q, lock);
    Writes(s, i, q, mode, lock);
    AgainAdd(s, a, 4, 1);
    AgainAdd(s, a, 5, 1);
    var s4 := Again(s, a, 4);
    var s5 := Step(s4, a);
    var s6 := Step(s5, a);
    assert s5.hooks == s.hooks[i := Waking(mode)] && s6.hooks == s.hooks[i := Idle];
    assert Again(s4, a, 1) == Again(s5, a, 0);
    assert Again(s5, a, 1) == Again(s6, a, 0);
  }

  /** Up to the choice of the request, when the terminal is not listed. */
  lemma Chooses(s: State, i: nat, q: Packet)
    requires !s.gone && i < |s.hooks| && s.hooks[i] == Idle
    requires Limited(s.sh, q) && !Listed(s.sh.list, q.terminal.mac)
    ensures Again(s, Hook(i, q, true), 3)
         == s.(hooks := s.hooks[i := Chosen(q, Mode(|s.sh.list|, s.sh.limit))])
  {
    var a := Hook(i, q, true);
    var s1 := Step(s, a);
    var s2 := Step(s1, a);
    var s3 := Step(s2, a);
    assert Again(s, a, 3) == Again(s1, a, 2);
    assert Again(s1, a, 2) == Again(s2, a, 1);
    assert Again(s2, a, 1) == Again(s3, a, 0);
  }

  /** A packet let through by a busy lock or its own list entry. */
  lemma Passes(s: State, i: nat, p: Packet, lock: bool)
    requires !s.gone && i < |s.hooks| && s.hooks[i] == Idle
    requires Limited(s.sh, p) && (!lock || Listed(s.sh.list, p.terminal.mac))
    ensures Again(s, Hook(i, p, lock), 1) == s.(hooks := s.hooks[i := Entered(p)])
    ensures Again(s, Hook(i, p, lock), 2) == s
  {
    var a := Hook(i, p, lock);
    var s1 := Step(s, a);
    var s2 := Step(s1, a);
    assert s2.hooks == s.hooks;
    assert Again(s, a, 1) == Again(s1, a, 0);
    assert Again(s, a, 2) == Again(s1, a, 1);
    assert Again(s1, a, 1) == Again(s2, a, 0);
  }

  /** The mailbox is read after the choice, and left alone unless free. */
  lemma Offers(s: State, i: nat, p: Packet)
    requires !s.gone && i < |s.hooks| && s.hooks[i] == Idle
    requires Limited(s.sh, p) && !Listed(s.sh.list, p.terminal.mac)
    ensures Again(s, Hook(i, p, true), 4)
         == s.(hooks := s.hooks[i := if s.sh.flag == NoAddTask
                                     then Posting(p, Mode(|s.sh.list|, s.sh.limit), 0) else Idle])
  {
    var a := Hook(i, p, true);
    Chooses(s, i, p);
    AgainAdd(s, a, 3, 1);
    var s3 := Again(s, a, 3);
    assert Again(s3, a, 1) == Again(Step(s3, a), a, 0);
  }

  /** The outcome of context i's next step on this packet. */
  function Outcomes(s: State, i: nat, p: Packet, lock: bool): Outcome
    requires i < |s.hooks|
  {
    HookReturns(s.sh, s.hooks[i], p, lock)
  }

  /** A context returns exactly with the step that makes it idle. */
  lemma ReturnsWhenIdle(s: State, i: nat, p: Packet, lock: bool)
    requires !s.gone && i < |s.hooks|
    ensures Outcomes(s, i, p, lock).Returns? <==> Step(s, Hook(i, p, lock)).hooks[i] == Idle
  {}

  /** k steps of context i, alone, have the effect of the uninterrupted hook, and
      the last of them returns its verdict. */
  predicate Alike(s: State, i: nat, p: Packet, lock: bool, k: nat) {
    && k > 0 && Again(s, Hook(i, p, lock), k) == Step(s, Whole(p, lock))
    && var t := Again(s, Hook(i, p, lock), k - 1);
       i < |t.hooks| && Outcomes(t, i, p, lock) == Returns(NetHook(s.sh, p, lock).1)
  }

  /** The uninterrupted hook is the split one running from idle to idle. */
  lemma WholeIsSplitAlone(s: State, i: nat, p: Packet, lock: bool) returns (k: nat)
    requires !s.gone && i < |s.hooks| && s.hooks[i] == Idle
    ensures Alike(s, i, p, lock, k)
  {
    if !Limited(s.sh, p) {
      k := 1;
      PassedOver(s, i, p, lock);
    } else if !lock || Listed(s.sh.list, p.terminal.mac) {
      k := 2;
      Passes(s, i, p, lock);
    } else if s.sh.flag == NoAddTask {
      k := 10;
      AlikePosting(s, i, p);
    } else {
      k := 4;
      AlikeRefused(s, i, p);
    }
  }

  lemma AlikePosting(s: State, i: nat, p: Packet)
    requires !s.gone && i < |s.hooks| && s.hooks[i] == Idle
    requires Limited(s.sh, p) && !Listed(s.sh.list, p.terminal.mac) && s.sh.flag == NoAddTask
    ensures Alike(s, i, p, true, 10)
  {
    OffersAndPosts(s, i, p);
  }

  lemma AlikeRefused(s: State, i: nat, p: Packet)
    requires !s.gone && i < |s.hooks| && s.hooks[i] == Idle
    requires Limited(s.sh, p) && !Listed(s.sh.list, p.terminal.mac) && s.sh.flag != NoAddTask
    ensures Alike(s, i, p, true, 4)
  {
    Offers(s, i, p);
    Chooses(s, i, p);
    assert s.hooks[i := Idle] == s.hooks;
  }

  lemma PassedOver(s: State, i: nat, p: Packet, lock: bool)
    requires !s.gone && i < |s.hooks| && s.hooks[i] == Idle && !Limited(s.sh, p)
    ensures Again(s, Hook(i, p, lock), 1) == s == Again(s, Hook(i, p, lock), 0)
  {
    var a := Hook(i, p, lock);
    assert Step(s, a).hooks == s.hooks;
    assert Again(s, a, 1) == Again(Step(s, a), a, 0);
  }

  lemma OffersAndPosts(s: State, i: nat, p: Packet)
    requires !s.gone && i < |s.hooks| && s.hooks[i] == Idle
    requires Limited(s.sh, p) && !Listed(s.sh.list, p.terminal.mac) && s.sh.flag == NoAddTask
    ensures var mode := Mode(|s.sh.list|, s.sh.limit);
      && Again(s, Hook(i, p, true), 9).hooks == s.hooks[i := Waking(mode)]
      && Again(s, Hook(i, p, true), 10)
         == s.(sh := s.sh.(node := p.terminal, flag := mode), asleep := false,
               h := s.h.(posts := s.h.posts + [p.terminal]))
  {
    var a := Hook(i, p, true);
    Offers(s, i, p);
    var s4 := Again(s, a, 4);
    AgainAdd(s, a, 4, 5);
    AgainAdd(s, a, 4, 6);
    Posts(s4, i, p, Mode(|s.sh.list|, s.sh.limit), true);
    assert s4.hooks[i := Idle] == s.hooks;
    assert s4.hooks[i := Waking(Mode(|s.sh.list|, s.sh.limit))] == s.hooks[i := Waking(Mode(|s.sh.list|, s.sh.limit))];
  }

  lemma ArpMarks(s: State, i: nat, mac: Mac)
    requires !s.gone && i < |s.arps| && s.arps[i] == ArpIdle
    requires s.sh.flag == ArpReplayCheck && s.sh.arpCmpMac == mac
    ensures Again(s, Arp(i, mac), 4)
         == s.(sh := s.sh.(flag := ArpReplayOk), asleep := false, h := s.h.(probe := Landed(s, mac)))
  {
    var a := Arp(i, mac);
    var s1 := Step(s, a);
    var s2 := Step(s1, a);
    var s3 := Step(s2, a);
    var s4 := Step(s3, a);
    assert s4.arps == s.arps;
    assert Again(s, a, 4) == Again(s1, a, 3);
    assert Again(s1, a, 3) == Again(s2, a, 2);
    assert Again(s2, a, 2) == Again(s3, a, 1);
    assert Again(s3, a, 1) == Again(s4, a, 0);
  }

  /** The same of the ARP hook. */
  lemma WholeArpIsSplitAlone(s: State, i: nat, mac: Mac) returns (k: nat)
    requires !s.gone && i < |s.arps| && s.arps[i] == ArpIdle
    ensures Again(s, Arp(i, mac), k) == Step(s, WholeArp(mac))
  {
    if s.sh.flag != ArpReplayCheck {
      k := 0;
    } else if s.sh.arpCmpMac == mac {
      k := 4;
      ArpMarks(s, i, mac);
    } else {
      k := 2;
      var s1 := Step(s, Arp(i, mac));
      var s2 := Step(s1, Arp(i, mac));
      assert s2.arps == s.arps;
      assert Again(s, Arp(i, mac), 2) == Again(s1, Arp(i, mac), 1);
      assert Again(s1, Arp(i, mac), 1) == Again(s2, Arp(i, mac), 0);
    }
  }
}
