/** The per-direction counters, what one received frame does to them and what
    the loss figure means. */
module SpeedStatus {
  import opened Octets
  import opened Checksum
  import opened SpeedPacket

  type u64 = n: int | 0 <= n < 0x1_0000_0000_0000_0000

  /** 64-bit wrap-around. */
  function Wrap(n: int): u64 { n % 0x1_0000_0000_0000_0000 }

  type Bytes = seq<byte>

  /** A received packet: at least addresses, tag and type. */
  type Packet = b: Bytes | |b| >= 18 witness seq(18, _ => 0)

  datatype Status = Status(send: u64, rcv: u64, err: u64, lose: u64, csum: word, finished: bool)

  function Inc(x: u64): u64 { Wrap(x + 1) }

  const ST0_MAC: seq<byte> := [0x10, 0x10, 0x10, 0x10, 0x10, 0x10]
  const ST1_MAC: seq<byte> := [0x40, 0x40, 0x40, 0x40, 0x40, 0x40]

  /** get_speedtest_port_by_index. */
  function Port(d: int): byte { if d != 0 then 4 else 1 }

  /** Which direction's source address a frame carries; 2 for neither. */
  function Direction(frame: Bytes): nat
    requires |frame| >= 12
  {
    if frame[6..12] == ST0_MAC then 0 else if frame[6..12] == ST1_MAC then 1 else 2
  }

  /** Six bytes from offset 6 on that are all x. */
  predicate FromMac(frame: Bytes, x: nat)
    requires |frame| >= 12
  {
    forall i :: 6 <= i < 12 ==> frame[i] == x
  }

  /** By the bytes: 10:10:10:10:10:10 is direction 0, 40:40:40:40:40:40 direction 1,
      and any other address neither. */
  lemma DirectionMeans(frame: Bytes)
    requires |frame| >= 12
    ensures Direction(frame) == 0 <==> FromMac(frame, 0x10)
    ensures Direction(frame) == 1 <==> FromMac(frame, 0x40)
    ensures Direction(frame) < 2 <==> FromMac(frame, 0x10) || FromMac(frame, 0x40)
  {
    SixBytes(frame, 0x10, ST0_MAC);
    SixBytes(frame, 0x40, ST1_MAC);
    assert FromMac(frame, 0x10) ==> frame[6] == 0x10;
    assert FromMac(frame, 0x40) ==> frame[6] == 0x40;
  }

  lemma SixBytes(frame: Bytes, x: byte, mac: seq<byte>)
    requires |frame| >= 12 && mac == [x, x, x, x, x, x]
    ensures frame[6..12] == mac <==> FromMac(frame, x)
  {
    if frame[6..12] == mac {
      forall i | 6 <= i < 12 ensures frame[i] == x { assert frame[i] == frame[6..12][i - 6]; }
    }
  }

  predicate Mismatch(st: Status, frame: Packet) {
    st.csum != ReceivedCsum(frame)
  }

  function Received(st: Status, frame: Packet): Status {
    st.(rcv := Inc(st.rcv), err := if Mismatch(st, frame) then Inc(st.err) else st.err)
  }

  /** The two directions' counters. */
  datatype Both = Both(zero: Status, one: Status)
  {
    function Get(d: nat): Status { if d == 0 then zero else one }

    function Set(d: nat, st: Status): Both { if d == 0 then Both(st, one) else Both(zero, st) }
  }

  function Tally(cs: Both, frame: Packet): Both {
    var d := Direction(frame);
    if d < 2 then cs.Set(d, Received(cs.Get(d), frame)) else cs
  }

  /** pktlose_count as computed at the end, in 64-bit arithmetic. */
  function Loss(send: int, rcv: int, err: int): u64 {
    Wrap(send - rcv - err)
  }

  function Finish(st: Status): Status {
    st.(lose := Loss(st.send, st.rcv, st.err), finished := true)
  }

  lemma WrapUnique(a: int, b: int, k: int)
    requires a == b + 0x1_0000_0000_0000_0000 * k
    ensures Wrap(a) == Wrap(b)
  {}

  lemma WrapSub(a: int, b: int)
    ensures Wrap(Wrap(a) - b) == Wrap(a - b)
    ensures Wrap(a - Wrap(b)) == Wrap(a - b)
    ensures Wrap(Wrap(a) + b) == Wrap(a + b)
  {
    var k, j := a / 0x1_0000_0000_0000_0000, b / 0x1_0000_0000_0000_0000;
    WrapUnique(Wrap(a) - b, a - b, -k);
    WrapUnique(a - Wrap(b), a - b, j);
    WrapUnique(Wrap(a) + b, a + b, -k);
  }

  lemma WrapDiffers(u: int, e: nat)
    requires 0 < e < 0x1_0000_0000_0000_0000
    ensures Wrap(u - e) != Wrap(u)
  {}

  lemma WrapSmall(n: u64)
    ensures Wrap(n) == n
  {}

  lemma LossIs(send: nat, rcv: nat, err: nat)
    ensures Loss(Wrap(send), Wrap(rcv), err) == Wrap(send - rcv - err)
  {
    WrapSub(send, Wrap(rcv) + err);
    assert Wrap(send) - (Wrap(rcv) + err) == Wrap(send) - Wrap(rcv) - err;
    assert send - (Wrap(rcv) + err) == send - err - Wrap(rcv);
    WrapSub(send - err, rcv);
    assert send - err - rcv == send - rcv - err;
  }

  lemma LossAddsUp(send: nat, rcv: nat, err: nat)
    ensures Wrap(Wrap(rcv) + err + Loss(Wrap(send), Wrap(rcv), err)) == Wrap(send)
  {
    LossIs(send, rcv, err);
    var l := send - rcv - err;
    WrapSub(l, Wrap(rcv) + err);
    assert Wrap(l) + (Wrap(rcv) + err) == Wrap(rcv) + err + Wrap(l);
    assert l + (Wrap(rcv) + err) == Wrap(rcv) + (send - rcv);
    WrapSub(rcv, send - rcv);
    assert rcv + (send - rcv) == send;
  }

  /** The loss figure plus the two receive counters gives back the send counter,
      so errors are subtracted twice: it is the number of undelivered packets
      exactly when no error was counted. */
  lemma LossMeans(send: nat, rcv: nat, err: nat)
    requires err < 0x1_0000_0000_0000_0000
    ensures Wrap(Wrap(rcv) + err + Loss(Wrap(send), Wrap(rcv), err)) == Wrap(send)
    ensures Loss(Wrap(send), Wrap(rcv), err) == Wrap(send - rcv) <==> err == 0
  {
    LossAddsUp(send, rcv, err);
    LossIs(send, rcv, err);
    if err > 0 { WrapDiffers(send - rcv, err); }
  }

  lemma EtherSource(port: byte)
    ensures Ether(port)[6..12] == seq(6, _ => SourceByte(port))
  {}

  lemma SourceDirection(frame: Bytes, d: nat)
    requires d < 2 && |frame| >= 12 && frame[6..12] == seq(6, _ => SourceByte(Port(d)))
    ensures Direction(frame) == d
  {
    assert SourceByte(Port(0)) == 0x10 && SourceByte(Port(1)) == 0x40;
    assert frame[6..12][0] == SourceByte(Port(d));
    assert ST0_MAC[0] == 0x10 && ST1_MAC[0] == 0x40;
    if d == 0 {
      assert frame[6..12] == ST0_MAC;
    } else {
      assert frame[6..12] == ST1_MAC;
    }
  }

  /** Built frames carry the address their direction is recognised by, also
      after the loop inserted a tag behind the addresses. */
  lemma OwnDirection(d: nat, size: nat, tag: Bytes)
    requires d < 2 && MIN_SIZE <= size <= MAX_SIZE
    ensures Direction(TestFrame(Port(d), size)) == d
    ensures Direction(Tagged(TestFrame(Port(d), size), tag)) == d
  {
    var f := TestFrame(Port(d), size);
    assert f[6..12] == Ether(Port(d))[6..12];
    EtherSource(Port(d));
    SourceDirection(f, d);
    var t := Tagged(f, tag);
    assert t[6..12] == f[6..12];
    SourceDirection(t, d);
  }
}
