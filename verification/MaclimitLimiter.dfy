/** The module's own functions over its own variables: the packet hook's walk,
    the ARP hook, one turn of the thread with its probing pass, and the proc
    write. What happens while the thread waits for a probe is a schedule of
    packets and ARP frames. */
module MaclimitLimiter {
  import opened Maclimit
  import opened MaclimitProc

  datatype Event = ArpFrame(mac: Mac) | PacketIn(p: Packet, lock: bool)

  predicate Heard(window: seq<Event>, mac: Mac) {
    ArpFrame(mac) in window
  }

  /** One window after another; nothing arrives after the last. */
  type Schedule = seq<seq<Event>>

  function At(w: Schedule, r: nat): seq<Event> {
    if r < |w| then w[r] else []
  }

  predicate HeardIn(w: Schedule, r: nat, mac: Mac) {
    Heard(At(w, r), mac)
  }

  /** Probes sent to an entry whose first probe opens window t, windows t to
      r - 1 having brought no answer. */
  function Sent(mac: Mac, w: Schedule, t: nat, r: nat): nat
    requires t <= r <= t + CHECK_ARP_PACKET_NUM
    decreases t + CHECK_ARP_PACKET_NUM - r
  {
    if r == t + CHECK_ARP_PACKET_NUM then CHECK_ARP_PACKET_NUM
    else if HeardIn(w, r, mac) then r - t + 1
    else Sent(mac, w, t, r + 1)
  }

  predicate AnswersAt(mac: Mac, w: Schedule, t: nat) {
    exists r: nat :: t <= r < t + CHECK_ARP_PACKET_NUM && HeardIn(w, r, mac)
  }

  /** A pass over the list: the MAC compared before it, and what arrives. Entry j
      has windows 2j, between lines 155 and 156, and 2j + 1, from there to the
      first loop test, in `setup`; its probes have theirs in `wait`. */
  datatype Pass = Pass(list: seq<Node>, cmp: Mac, setup: Schedule, wait: Schedule)

  /** A frame that counts before entry j's first probe. */
  predicate Early(p: Pass, j: nat)
    requires j < |p.list|
  {
    HeardIn(p.setup, 2 * j, Compared(p, j)) || HeardIn(p.setup, 2 * j + 1, p.list[j].mac)
  }

  /** The window of the first probe to entry j, all entries before it probed. */
  function First(p: Pass, j: nat): nat
    requires j <= |p.list|
  {
    if j == 0 then 0
    else var t := First(p, j - 1); t + if Early(p, j - 1) then 0 else Sent(p.list[j - 1].mac, p.wait, t, t)
  }

  predicate Answers(p: Pass, j: nat)
    requires j < |p.list|
  {
    Early(p, j) || AnswersAt(p.list[j].mac, p.wait, First(p, j))
  }

  predicate FirstSilent(p: Pass, k: nat) {
    k < |p.list| && !Answers(p, k) && forall j :: 0 <= j < k ==> Answers(p, j)
  }

  predicate AllAnswer(p: Pass) {
    forall j :: 0 <= j < |p.list| ==> Answers(p, j)
  }

  /** The pass has reached entry j after t probes. */
  predicate Passed(p: Pass, j: nat, t: nat) {
    j <= |p.list| && t == First(p, j) && forall i :: 0 <= i < j ==> Answers(p, i)
  }

  /** What the pass compares with when it reaches entry j. */
  function Compared(p: Pass, j: nat): Mac
    requires j <= |p.list|
  {
    if j == 0 then p.cmp else p.list[j - 1].mac
  }

  lemma PassedNext(p: Pass, j: nat, t: nat, sent: nat)
    requires j < |p.list| && Passed(p, j, t)
    ensures Answers(p, j) && t + sent == First(p, j + 1) ==> Passed(p, j + 1, t + sent)
    ensures !Answers(p, j) ==> FirstSilent(p, j)
  {}

  lemma {:induction false} SentMeans(mac: Mac, w: Schedule, t: nat, r: nat)
    requires t <= r <= t + CHECK_ARP_PACKET_NUM
    ensures r - t <= Sent(mac, w, t, r) <= CHECK_ARP_PACKET_NUM
    ensures r < t + CHECK_ARP_PACKET_NUM ==> r - t < Sent(mac, w, t, r)
    ensures forall k: nat :: r <= k < t + Sent(mac, w, t, r) - 1 ==> !HeardIn(w, k, mac)
    ensures Sent(mac, w, t, r) < CHECK_ARP_PACKET_NUM ==> HeardIn(w, t + Sent(mac, w, t, r) - 1, mac)
    decreases t + CHECK_ARP_PACKET_NUM - r
  {
    if r < t + CHECK_ARP_PACKET_NUM && !HeardIn(w, r, mac) {
      SentMeans(mac, w, t, r + 1);
    }
  }

  /** Probing ends with the first window that brings an answer, or with the fifth. */
  lemma SentEnds(mac: Mac, w: Schedule, t: nat)
    ensures var last := t + Sent(mac, w, t, t) - 1;
            && t <= last < t + CHECK_ARP_PACKET_NUM
            && (forall k: nat :: t <= k < last ==> !HeardIn(w, k, mac))
            && (AnswersAt(mac, w, t) <==> HeardIn(w, last, mac))
            && (!AnswersAt(mac, w, t) ==> last == t + CHECK_ARP_PACKET_NUM - 1)
  {
    SentMeans(mac, w, t, t);
    var last := t + Sent(mac, w, t, t) - 1;
    if !HeardIn(w, last, mac) {
      assert forall r: nat :: t <= r < t + CHECK_ARP_PACKET_NUM ==> !HeardIn(w, r, mac);
    }
  }

  /** A pass sends at most five probes to an entry. */
  lemma {:induction false} ProbeBudget(p: Pass, j: nat)
    requires j <= |p.list|
    ensures First(p, j) <= 5 * j
  {
    if j > 0 {
      ProbeBudget(p, j - 1);
      var t := First(p, j - 1);
      SentMeans(p.list[j - 1].mac, p.wait, t, t);
    }
  }

  function Happen(sh: Shared, e: Event): Shared {
    match e
    case ArpFrame(mac) => ArpIn(sh, mac)
    case PacketIn(p, lock) => NetHook(sh, p, lock).0
  }

  function HappenAll(sh: Shared, es: seq<Event>): Shared {
    if es == [] then sh else Happen(HappenAll(sh, es[..|es| - 1]), es[|es| - 1])
  }

  /** While the thread probes, packets find the mailbox taken and only the
      probed entry's own frame does anything. */
  lemma {:induction false} WindowEffect(sh: Shared, es: seq<Event>)
    requires sh.flag == ArpReplayCheck || sh.flag == ArpReplayOk
    ensures HappenAll(sh, es)
         == if sh.flag == ArpReplayCheck && Heard(es, sh.arpCmpMac) then sh.(flag := ArpReplayOk) else sh
  {
    if es != [] {
      WindowEffect(sh, es[..|es| - 1]);
      assert es == es[..|es| - 1] + [es[|es| - 1]];
    }
  }

  /** A packet for which the hook makes a request: limiting is on, the packet comes
      from br0 and is not UDP, the lock was free and no entry has its MAC. */
  predicate Asks(p: Packet, lock: bool, enable: int, list: seq<Node>) {
    enable != 0 && !p.udp && p.br0 && lock && forall k :: 0 <= k < |list| ==> list[k].mac != p.terminal.mac
  }

  class Limiter {
    var flag: AddMode
    var node: Node
    var arpCmpMac: Mac
    var list: seq<Node>
    var enable: int
    var limit: int

    function View(): Shared
      reads this
    {
      Shared(flag, node, arpCmpMac, list, enable, limit)
    }

    constructor ()
      ensures View() == INITIAL
      ensures flag == NoAddTask && list == [] && enable == 0 && limit == 1
    {
      flag, node, arpCmpMac, list, enable, limit := NoAddTask, ZERO_NODE, 0, [], 0, 1;
    }

    method SendAddOptToThread(terminal: Node, mode: AddMode)
      modifies this
      ensures View() == Post(old(View()), terminal, mode)
      ensures old(flag) == NoAddTask ==> node == terminal && flag == mode
      ensures old(flag) != NoAddTask ==> View() == old(View())
      ensures list == old(list) && arpCmpMac == old(arpCmpMac) && enable == old(enable) && limit == old(limit)
    {
      if flag == NoAddTask {
        node := node.(srcip := terminal.srcip);
        node := node.(dstip := terminal.dstip);
        node := node.(dev := terminal.dev);
        node := node.(mac := terminal.mac);
        flag := mode;
      }
    }

    method NetHookFunc(p: Packet, lock: bool) returns (v: Verdict)
      modifies this
      ensures (View(), v) == NetHook(old(View()), p, lock)
      ensures v == Drop <==> Asks(p, lock, old(enable), old(list)) && |old(list)| >= old(limit)
      ensures Asks(p, lock, old(enable), old(list)) && old(flag) == NoAddTask ==>
        node == p.terminal && flag == if |old(list)| < old(limit) then AddImmediate else AddCheck
      ensures !Asks(p, lock, old(enable), old(list)) || old(flag) != NoAddTask ==> View() == old(View())
      ensures list == old(list) && arpCmpMac == old(arpCmpMac) && enable == old(enable) && limit == old(limit)
    {
      if enable != 0 && !p.udp && p.br0 {
        if !lock { return Accept; }
        var connected := 0;
        while connected < |list|
          invariant 0 <= connected <= |list| && View() == old(View())
          invariant forall k :: 0 <= k < connected ==> list[k].mac != p.terminal.mac
        {
          connected := connected + 1;
          if list[connected - 1].mac == p.terminal.mac { return Accept; }
        }
        if connected < limit {
          SendAddOptToThread(p.terminal, AddImmediate);
          return Accept;
        } else {
          SendAddOptToThread(p.terminal, AddCheck);
          return Drop;
        }
      }
      return Accept;
    }

    method ArpInHookFunc(mac: Mac)
      modifies this
      ensures View() == ArpIn(old(View()), mac)
      ensures flag == if old(flag) == ArpReplayCheck && mac == arpCmpMac then ArpReplayOk else old(flag)
      ensures View() == old(View()).(flag := flag)
    {
      if flag == ArpReplayCheck {
        if mac == arpCmpMac { flag := ArpReplayOk; }
      }
    }

    /** Everything that arrives during one probe wait. */
    method Window(es: seq<Event>)
      modifies this
      ensures View() == HappenAll(old(View()), es)
    {
      var k := 0;
      while k < |es|
        invariant 0 <= k <= |es| && View() == HappenAll(old(View()), es[..k])
      {
        assert es[..k + 1][..k] == es[..k];
        match es[k] {
          case ArpFrame(mac) => ArpInHookFunc(mac);
          case PacketIn(p, lock) => var _ := NetHookFunc(p, lock);
        }
        k := k + 1;
      }
      assert es[..|es|] == es;
    }

    /** Lines 155-156, with what arrives between them and right after. */
    method SetUpProbe(pos: Node, gap: seq<Event>, after: seq<Event>)
      modifies this
      ensures flag == if Heard(gap, old(arpCmpMac)) || Heard(after, pos.mac) then ArpReplayOk else ArpReplayCheck
      ensures View() == old(View()).(arpCmpMac := pos.mac, flag := flag)
    {
      flag := ArpReplayCheck;
      WindowEffect(View(), gap);
      Window(gap);
      arpCmpMac := pos.mac;
      WindowEffect(View(), after);
      Window(after);
    }

    /** Lines 157-169: the probes, the first one opening window t. */
    method ProbeLoop(pos: Node, w: Schedule, t: nat) returns (sent: nat)
      requires arpCmpMac == pos.mac && (flag == ArpReplayCheck || flag == ArpReplayOk)
      modifies this
      ensures sent == if old(flag) == ArpReplayOk then 0 else Sent(pos.mac, w, t, t)
      ensures flag == if old(flag) == ArpReplayOk || AnswersAt(pos.mac, w, t) then ArpReplayOk else ArpReplayCheck
      ensures View() == old(View()).(flag := flag)
      ensures flag == ArpReplayCheck ==> sent == CHECK_ARP_PACKET_NUM
    {
      var i := 0;
      while i < CHECK_ARP_PACKET_NUM && flag == ArpReplayCheck
        invariant 0 <= i <= CHECK_ARP_PACKET_NUM
        invariant View() == old(View()).(flag := flag)
        invariant flag == ArpReplayCheck || flag == ArpReplayOk
        invariant old(flag) == ArpReplayOk ==> flag == ArpReplayOk && i == 0
        invariant flag == ArpReplayCheck ==>
          Sent(pos.mac, w, t, t) == Sent(pos.mac, w, t, t + i) &&
          forall r: nat :: t <= r < t + i ==> !HeardIn(w, r, pos.mac)
        invariant flag == ArpReplayOk && old(flag) == ArpReplayCheck ==>
          i == Sent(pos.mac, w, t, t) && i > 0 && HeardIn(w, t + i - 1, pos.mac)
      {
        WindowEffect(View(), At(w, t + i));
        assert HeardIn(w, t + i, pos.mac) == Heard(At(w, t + i), pos.mac);
        Window(At(w, t + i));
        i := i + 1;
      }
      sent := i;
    }

    /** Lines 155-169 for entry j of the pass. */
    method ProbeEntry(ghost p: Pass, setup: Schedule, wait: Schedule, j: nat, t: nat) returns (sent: nat)
      requires j < |list| && p == Pass(list, p.cmp, setup, wait) && t == First(p, j)
      requires arpCmpMac == Compared(p, j)
      modifies this
      ensures flag == if Answers(p, j) then ArpReplayOk else ArpReplayCheck
      ensures t + sent == if Answers(p, j) then First(p, j + 1) else t + CHECK_ARP_PACKET_NUM
      ensures View() == old(View()).(arpCmpMac := p.list[j].mac, flag := flag)
    {
      SetUpProbe(list[j], At(setup, 2 * j), At(setup, 2 * j + 1));
      assert flag == if Early(p, j) then ArpReplayOk else ArpReplayCheck;
      sent := ProbeLoop(list[j], wait, t);
    }

    /** The ADD_CHECK pass: one new node in place of the first silent entry. */
    method CheckPass(setup: Schedule, wait: Schedule, ok: bool) returns (probes: nat, j: nat)
      modifies this
      ensures var p := Pass(old(list), old(arpCmpMac), setup, wait);
        && (FirstSilent(p, j) || (j == |p.list| && AllAnswer(p)))
        && probes == First(p, j) + (if j < |p.list| then CHECK_ARP_PACKET_NUM else 0)
        && list == if j < |p.list| && ok then p.list[j := old(node)] else p.list
      ensures node == old(node) && enable == old(enable) && limit == old(limit)
    {
      probes := 0;
      j := 0;
      ghost var p := Pass(list, arpCmpMac, setup, wait);
      while j < |list|
        invariant list == p.list && node == old(node) && enable == old(enable) && limit == old(limit)
        invariant Passed(p, j, probes) && arpCmpMac == Compared(p, j)
      {
        var sent := ProbeEntry(p, setup, wait, j, probes);
        PassedNext(p, j, probes, sent);
        if flag == ArpReplayCheck {
          probes := probes + sent;
          if ok {
            list := list[j := node];
          }
          return;
        }
        probes := probes + sent;
        j := j + 1;
      }
    }

    /** One turn of the thread's loop, lines 141-194. */
    method Turn(setup: Schedule, wait: Schedule, ok: bool) returns (probes: nat)
      modifies this
      ensures flag == NoAddTask && node == old(node) && enable == old(enable) && limit == old(limit)
      ensures old(flag) == AddImmediate ==> list == if ok then [old(node)] + old(list) else old(list)
      ensures old(flag) == AddCheck ==>
        var p := Pass(old(list), old(arpCmpMac), setup, wait);
        && (AllAnswer(p) || !ok ==> list == p.list)
        && (forall k: nat :: FirstSilent(p, k) && ok ==> list == p.list[k := old(node)])
        && (AllAnswer(p) || exists k: nat :: FirstSilent(p, k))
      ensures probes <= 5 * |old(list)|
      ensures !AddRequest(old(flag)) ==> list == old(list) && probes == 0
    {
      probes := 0;
      match flag {
        case AddImmediate =>
          if ok { list := [node] + list; }
        case AddCheck =>
          ghost var p := Pass(list, arpCmpMac, setup, wait);
          var j;
          probes, j := CheckPass(setup, wait, ok);
          ProbeBudget(p, j);
          if j < |p.list| { SilentIsUnique(p, j); }
        case _ =>
      }
      flag := NoAddTask;
    }

    /** The configuration line reaches the settings: the limit, and the switch
        exactly when it fits an int. */
    method Configure(n: nat, k: nat, e: nat, count: nat, tail: seq<char>)
      requires k >= 1 && |Line(n, k, e)| <= count <= PROC_RECEIVE_BUF_SIZE
      requires count < |Line(n, k, e)| + |tail| && Ends(tail[0])
      modifies this`limit, this`enable
      ensures limit == n && (enable == e <==> e < 0x8000_0000)
    {
      LineReadBack(n, k, e, count, tail);
      var r := WriteProc(Line(n, k, e) + tail, count, false);
    }

    /** A number alone, with blanks behind it or not, leaves the switch as it is. */
    method ConfigureLimit(n: nat, k: nat, tail: seq<char>)
      requires |Dec(n)| + k <= PROC_RECEIVE_BUF_SIZE && |Dec(n)| <= 18 && tail != [] && tail[0] == '\0'
      modifies this`limit, this`enable
      ensures limit == n && enable == old(enable)
    {
      LimitAlone(n, k, tail);
      var r := WriteProc(Dec(n) + Blanks(k) + tail, |Dec(n)| + k, false);
    }

    /** `write_maclimit_proc`: m is the 20-byte buffer with the text copied in,
        followed by whatever memory follows it. */
    method WriteProc(m: seq<char>, count: nat, fault: bool) returns (r: int)
      requires count < |m| || count > PROC_RECEIVE_BUF_SIZE
      modifies this`limit, this`enable
      ensures count > PROC_RECEIVE_BUF_SIZE || fault ==>
        r == -EFAULT && limit == old(limit) && enable == old(enable)
      ensures count <= PROC_RECEIVE_BUF_SIZE && !fault ==>
        && r == count
        && limit == (if count == 0 then old(limit) else AsLong(StrToUl(m, 0)))
        && (forall i: nat :: Second(m, count, i) ==> enable == AsInt(StrToUl(m, i + 1)))
        && ((forall i :: 0 < i < count ==> !Blank(m, i)) ==> enable == old(enable))
    {
      if count > PROC_RECEIVE_BUF_SIZE { return -EFAULT; }
      if fault { return -EFAULT; }
      var opts := 0;
      var i := 0;
      ghost var second := 0;
      while i < count
        invariant 0 <= i <= count
        invariant opts == 0 <==> i == 0
        invariant opts == 0 ==> limit == old(limit) && enable == old(enable)
        invariant opts > 0 ==> limit == AsLong(StrToUl(m, 0))
        invariant opts == 1 ==> enable == old(enable) && forall k :: 0 < k < i ==> !Blank(m, k)
        invariant opts > 1 ==> second < i && Second(m, count, second) && enable == AsInt(StrToUl(m, second + 1))
      {
        if i == 0 || (m[i] == ' ' && m[i + 1] != '\0' && m[i + 1] != ' ') {
          if opts == 0 {
            limit := AsLong(StrToUl(m, i));
          } else if opts == 1 {
            enable := AsInt(StrToUl(m, i + 1));
            second := i;
          }
          opts := opts + 1;
        }
        i := i + 1;
      }
      return count;
    }
  }

  lemma SilentIsUnique(p: Pass, j: nat)
    requires FirstSilent(p, j)
    ensures !AllAnswer(p) && forall k: nat :: FirstSilent(p, k) ==> k == j
  {}
}
