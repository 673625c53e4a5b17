/** The test frame of the line-speed tester: how it is built field by field,
    that its two checksums verify, what reference checksum the sender stores
    for it, and which damage the receiver's comparison sees. */
module SpeedPacket {
  import opened Octets
  import opened Checksum

  const MIN_SIZE: nat := 42
  const MAX_SIZE: nat := 65549
  const TAG_LEN: nat := 4

  /** (port & 0x0f) << 4, stored in each of six bytes. */
  function SourceByte(port: byte): byte { port % 16 * 16 }

  function Ether(port: byte): (b: seq<byte>)
    ensures |b| == 14
  {
    var s := SourceByte(port);
    [0x80, 0x80, 0x80, 0x80, 0x80, 0x80, s, s, s, s, s, s, 0x08, 0x00]
  }

  function Hi(x: word): byte { x / 256 }

  function Lo(x: word): byte { x % 256 }

  /** 20 bytes without options: 192.168.85.1 to 192.168.85.2, UDP, TTL 64. */
  function Ip(totLen: word, check: word): (b: seq<byte>)
    ensures |b| == 20
  {
    [0x45, 0, Hi(totLen), Lo(totLen), 0x11, 0x11, 0, 0, 64, 17, Hi(check), Lo(check),
     192, 168, 85, 1, 192, 168, 85, 2]
  }

  /** Port 8888 to port 9999. */
  function UdpHead(len: word, check: word): (b: seq<byte>)
    ensures |b| == 8
  {
    [0x22, 0xb8, 0x27, 0x0f, Hi(len), Lo(len), Hi(check), Lo(check)]
  }

  /** The words of the UDP pseudo-header (RFC 768 "Fields"). */
  function Pseudo(len: word): nat {
    0xc0a8 + 0x5501 + 0xc0a8 + 0x5502 + 17 + len
  }

  predicate Fits(payload: seq<byte>) {
    MIN_SIZE + |payload| <= MAX_SIZE
  }

  function UdpLen(payload: seq<byte>): word
    requires Fits(payload)
  { 8 + |payload| }

  function TotLen(payload: seq<byte>): word
    requires Fits(payload)
  { 28 + |payload| }

  /** csum_tcpudp_magic over skb_checksum, both computed with the field zero. */
  function UdpCheck(payload: seq<byte>): word
    requires Fits(payload)
  {
    0xffff - Fold(Pseudo(UdpLen(payload)) + WordSum(UdpHead(UdpLen(payload), 0) + payload))
  }

  function IpCheck(payload: seq<byte>): word
    requires Fits(payload)
  {
    Csum(Ip(TotLen(payload), 0))
  }

  function Datagram(payload: seq<byte>): seq<byte>
    requires Fits(payload)
  {
    UdpHead(UdpLen(payload), UdpCheck(payload)) + payload
  }

  function Frame(port: byte, payload: seq<byte>): (f: seq<byte>)
    requires Fits(payload)
    ensures |f| == MIN_SIZE + |payload|
  {
    Ether(port) + (Ip(TotLen(payload), IpCheck(payload)) + Datagram(payload))
  }

  function Filler(n: nat): (b: seq<byte>)
    ensures |b| == n && forall i :: 0 <= i < n ==> b[i] == 0xaa
  {
    seq(n, _ => 0xaa)
  }

  /** The frame the source builds for a configured size. */
  function TestFrame(port: byte, size: nat): seq<byte>
    requires MIN_SIZE <= size <= MAX_SIZE
  {
    Frame(port, Filler(size - MIN_SIZE))
  }

  /** The loop inserts an 802.1Q tag between the addresses and the type. */
  function Tagged(frame: seq<byte>, tag: seq<byte>): seq<byte>
    requires |frame| >= 12
  {
    frame[..12] + tag + frame[12..]
  }

  /** What the sender stores as pkt_csum. */
  function SentCsum(frame: seq<byte>): word
    requires |frame| >= 14
  { Csum(frame[14..]) }

  /** What the receiver compares with it. */
  function ReceivedCsum(frame: seq<byte>): word
    requires |frame| >= 18
  { Csum(frame[18..]) }

  // ----- both checksums verify

  /** Filling a zero 16-bit field at an even offset adds its value to the sum. */
  lemma FieldSum(b: seq<byte>, i: nat, x: word)
    requires i % 2 == 0 && i + 1 < |b| && b[i] == 0 && b[i + 1] == 0
    ensures WordSum(b[i := Hi(x)][i + 1 := Lo(x)]) == WordSum(b) + x
  {
    WordSumUpdate(b, i, Hi(x));
    WordSumUpdate(b[i := Hi(x)], i + 1, Lo(x));
  }

  lemma IpSum(totLen: word, check: word)
    ensures WordSum(Ip(totLen, check)) == WordSum(Ip(totLen, 0)) + check
  {
    FieldSum(Ip(totLen, 0), 10, check);
    assert Ip(totLen, check) == Ip(totLen, 0)[10 := Hi(check)][11 := Lo(check)];
  }

  lemma UdpSum(len: word, check: word, payload: seq<byte>)
    ensures WordSum(UdpHead(len, check) + payload) == WordSum(UdpHead(len, 0) + payload) + check
  {
    FieldSum(UdpHead(len, 0) + payload, 6, check);
    assert UdpHead(len, check) + payload == (UdpHead(len, 0) + payload)[6 := Hi(check)][7 := Lo(check)];
  }

  /** For every payload that fits: the receiver's folded sum of the IP header,
      and of pseudo-header plus UDP datagram, is all ones. */
  lemma HeadersVerify(payload: seq<byte>)
    requires Fits(payload)
    ensures Fold(WordSum(Ip(TotLen(payload), IpCheck(payload)))) == 0xffff
    ensures Fold(Pseudo(UdpLen(payload)) + WordSum(Datagram(payload))) == 0xffff
  {
    IpSum(TotLen(payload), IpCheck(payload));
    ComplementVerifies(WordSum(Ip(TotLen(payload), 0)));
    UdpSum(UdpLen(payload), UdpCheck(payload), payload);
    ComplementVerifies(Pseudo(UdpLen(payload)) + WordSum(UdpHead(UdpLen(payload), 0) + payload));
  }

  lemma {:induction false} FillerSum(n: nat)
    ensures WordSum(Filler(n)) == n / 2 * 0xaaaa + n % 2 * 0xaa00
  {
    if n >= 2 {
      assert Filler(n)[2..] == Filler(n - 2);
      FillerSum(n - 2);
    }
  }

  lemma UdpHeadSum(len: word)
    ensures WordSum(UdpHead(len, 0)) == 8888 + 9999 + len
  {
    var b := UdpHead(len, 0);
    assert b[2..][2..][2..][2..] == [];
    assert WordSum(b[2..][2..][2..]) == 0;
    assert WordSum(b[2..][2..]) == len;
    assert WordSum(b[2..]) == 9999 + len;
  }

  /** Three fillers of two bytes add a multiple of 65535. */
  function Rest(q: nat, t: nat, r: nat): nat {
    161083 + 12 * q + (4 + 0xaaaa) * t + (2 + 0xaa00) * r
  }

  lemma BySix(n: nat) returns (q: nat, t: nat, r: nat)
    ensures t < 3 && r < 2 && n == 6 * q + 2 * t + r
    ensures n / 2 == 3 * q + t && n % 2 == r
  {
    q, t, r := n / 2 / 3, n / 2 % 3, n % 2;
  }

  lemma BetweenMultiples(s: nat)
    requires 0xffff < s < 0xffff * 7
    requires s != 0xffff * 2 && s != 0xffff * 3 && s != 0xffff * 4 && s != 0xffff * 5 && s != 0xffff * 6
    ensures s % 0xffff != 0
  {
    var m := s / 0xffff;
    assert s == 0xffff * m + s % 0xffff && 1 <= m < 7;
  }

  lemma RestNeverMultiple(q: nat, t: nat, r: nat)
    requires q < 11000 && t < 3 && r < 2
    ensures Rest(q, t, r) % 0xffff != 0
  {
    BetweenMultiples(Rest(q, t, r));
  }

  lemma NeverMultiple(n: nat)
    requires n <= MAX_SIZE - MIN_SIZE
    ensures (161067 + 2 * (n + 8) + n / 2 * 0xaaaa + n % 2 * 0xaa00) % 0xffff != 0
  {
    var q, t, r := BySix(n);
    RestNeverMultiple(q, t, r);
    ModPlus(Rest(q, t, r), 2 * q);
    assert 161067 + 2 * (n + 8) + n / 2 * 0xaaaa + n % 2 * 0xaa00 == Rest(q, t, r) + 0xffff * (2 * q);
  }

  lemma NotAllOnes(s: nat)
    requires s % 0xffff != 0
    ensures Fold(s) != 0xffff
  {
    FoldMeans(s);
  }

  /** The builder never stores the value 0, which would mean "no checksum"
      (RFC 768 "Fields"), although it does not guard against it. */
  lemma UdpCheckNeverZero(n: nat)
    requires n <= MAX_SIZE - MIN_SIZE
    ensures UdpCheck(Filler(n)) != 0
  {
    var len: word := UdpLen(Filler(n));
    UdpHeadSum(len);
    FillerSum(n);
    WordSumAppend(UdpHead(len, 0), Filler(n));
    NeverMultiple(n);
    var s: nat := Pseudo(len) + WordSum(UdpHead(len, 0) + Filler(n));
    assert s == 161067 + 2 * (n + 8) + n / 2 * 0xaaaa + n % 2 * 0xaa00;
    NotAllOnes(s);
  }

  // ----- the stored reference checksum

  lemma AfterEther(port: byte, payload: seq<byte>)
    requires Fits(payload)
    ensures Frame(port, payload)[14..] == Ip(TotLen(payload), IpCheck(payload)) + Datagram(payload)
  {}

  lemma Opposite(p: nat, b: nat)
    requires (p + b) % 0xffff == 0
    ensures p % 0xffff == if b % 0xffff == 0 then 0 else 0xffff - b % 0xffff
  {
    var q := (p + b) / 0xffff - p / 0xffff - b / 0xffff;
    assert p % 0xffff + b % 0xffff == 0xffff * q;
  }

  lemma ComplementOfPair(a: nat, b: nat, p: nat)
    requires a > 0 && a % 0xffff == 0 && (p + b) % 0xffff == 0
    ensures 0xffff - Fold(a + b) == p % 0xffff
  {
    FoldMeans(a + b);
    ModPlus(b, a / 0xffff);
    Opposite(p, b);
    var f: nat := Fold(a + b);
    assert 0 < f <= 0xffff && f % 0xffff == b % 0xffff;
  }

  /** A header that verifies followed by a datagram that verifies against p. */
  lemma CsumOfVerified(ip: seq<byte>, datagram: seq<byte>, p: nat)
    requires |ip| % 2 == 0 && Fold(WordSum(ip)) == 0xffff && Fold(p + WordSum(datagram)) == 0xffff
    ensures Csum(ip + datagram) == p % 0xffff
    ensures WordSum(ip + datagram) > 0
  {
    WordSumAppend(ip, datagram);
    FoldMeans(WordSum(ip));
    FoldMeans(p + WordSum(datagram));
    ComplementOfPair(WordSum(ip), WordSum(datagram), p);
  }

  /** The reference checksum is the pseudo-header's sum modulo 65535, whatever
      the payload: neither the direction nor a single payload byte enters it. */
  lemma StoredIsPseudo(port: byte, payload: seq<byte>)
    requires Fits(payload)
    ensures SentCsum(Frame(port, payload)) == Pseudo(UdpLen(payload)) % 0xffff
    ensures WordSum(Frame(port, payload)[14..]) > 0
  {
    AfterEther(port, payload);
    HeadersVerify(payload);
    CsumOfVerified(Ip(TotLen(payload), IpCheck(payload)), Datagram(payload), Pseudo(UdpLen(payload)));
  }

  // ----- what the receiver sees

  lemma TagIsSkipped(frame: seq<byte>, tag: seq<byte>)
    requires |frame| >= 14 && |tag| == TAG_LEN
    ensures Tagged(frame, tag)[18..] == frame[14..]
  {}

  /** A frame that only gained a tag matches the stored checksum, whatever the tag. */
  lemma CleanMatches(port: byte, payload: seq<byte>, tag: seq<byte>)
    requires Fits(payload) && |tag| == TAG_LEN
    ensures ReceivedCsum(Tagged(Frame(port, payload), tag)) == SentCsum(Frame(port, payload))
  {
    TagIsSkipped(Frame(port, payload), tag);
  }

  /** One changed byte at received offset 18 or later does not. */
  lemma OneByteMismatches(port: byte, payload: seq<byte>, tag: seq<byte>, i: nat, x: byte)
    requires Fits(payload) && |tag| == TAG_LEN
    requires var r := Tagged(Frame(port, payload), tag); 18 <= i < |r| && x != r[i]
    ensures var r := Tagged(Frame(port, payload), tag);
            ReceivedCsum(r[i := x]) != SentCsum(Frame(port, payload))
  {
    var r := Tagged(Frame(port, payload), tag);
    TagIsSkipped(Frame(port, payload), tag);
    assert r[i := x][18..] == r[18..][i - 18 := x];
    OneByteChangesCsum(r[18..], i - 18, x);
  }

  /** Any other damage behind the tag is missed exactly when the word sum stays
      congruent modulo 65535 and non-zero. */
  lemma MissedExactlyWhen(port: byte, payload: seq<byte>, received: seq<byte>)
    requires Fits(payload) && |received| >= 18
    ensures ReceivedCsum(received) == SentCsum(Frame(port, payload)) <==>
            WordSum(received[18..]) % 0xffff == WordSum(Frame(port, payload)[14..]) % 0xffff
            && WordSum(received[18..]) != 0
  {
    StoredIsPseudo(port, payload);
    SameCsum(received[18..], Frame(port, payload)[14..]);
  }

  // ----- the builder

  method BuildEther(skb: array<byte>, port: byte)
    requires skb.Length >= MIN_SIZE
    modifies skb
    ensures skb[..14] == Ether(port) && skb[14..] == old(skb[14..])
  {
    Memset(skb, 0, 0x80, 6);
    Memset(skb, 6, port % 16 * 16, 6);
    skb[12], skb[13] := 0x08, 0x00;
  }

  method IpAddresses(skb: array<byte>)
    requires MIN_SIZE <= skb.Length
    modifies skb
    ensures skb[26] == 192 && skb[27] == 168 && skb[28] == 85 && skb[29] == 1
    ensures skb[30] == 192 && skb[31] == 168 && skb[32] == 85 && skb[33] == 2
    ensures forall i :: 0 <= i < skb.Length && !(26 <= i < 34) ==> skb[i] == old(skb[i])
  {
    skb[30], skb[31], skb[32], skb[33] := 192, 168, 85, 2;
    skb[26], skb[27], skb[28], skb[29] := 192, 168, 85, 1;
  }

  /** The header fields with fixed values, and a zero checksum. */
  method IpFields(skb: array<byte>)
    requires MIN_SIZE <= skb.Length
    modifies skb
    ensures skb[14] == 0x45 && skb[15] == 0
    ensures skb[18] == 0x11 && skb[19] == 0x11 && skb[20] == 0 && skb[21] == 0
    ensures skb[22] == 64 && skb[23] == 17 && skb[24] == 0 && skb[25] == 0
    ensures skb[26] == 192 && skb[27] == 168 && skb[28] == 85 && skb[29] == 1
    ensures skb[30] == 192 && skb[31] == 168 && skb[32] == 85 && skb[33] == 2
    ensures forall i :: 0 <= i < skb.Length && !(14 <= i < 34) ==> skb[i] == old(skb[i])
  {
    skb[14], skb[15] := 0x45, 0;
    skb[20], skb[21] := 0, 0;
    skb[22] := 64;
    IpAddresses(skb);
    skb[23] := 17;
    skb[18], skb[19] := 0x11, 0x11;
    skb[24], skb[25] := 0, 0;
  }

  /** Lines 226-237 and 251-252: the header, its checksum last. */
  method BuildIp(skb: array<byte>)
    requires MIN_SIZE <= skb.Length <= MAX_SIZE
    modifies skb
    ensures skb[14..34] == Ip(skb.Length - 14, Csum(Ip(skb.Length - 14, 0)))
    ensures skb[..14] == old(skb[..14]) && skb[34..] == old(skb[34..])
  {
    IpFields(skb);
    var totLen: word := skb.Length - 14;
    skb[16], skb[17] := Hi(totLen), Lo(totLen);
    assert skb[14..34] == Ip(totLen, 0);
    var c := ComputeCsum(skb[14..34]);
    skb[24], skb[25] := Hi(c), Lo(c);
    assert skb[14..34] == Ip(totLen, 0)[10 := Hi(c)][11 := Lo(c)];
  }

  /** The datagram with a zero checksum. */
  method UdpFields(skb: array<byte>, len: word)
    requires MIN_SIZE <= skb.Length && len == skb.Length - 34
    modifies skb
    ensures skb[34..] == UdpHead(len, 0) + Filler(len - 8)
    ensures skb[..34] == old(skb[..34])
  {
    Memset(skb, 42, 0xaa, len - 8);
    assert skb[42..] == Filler(len - 8);
    UdpHeadFields(skb, len);
    assert skb[34..] == skb[34..42] + skb[42..];
  }

  method UdpHeadFields(skb: array<byte>, len: word)
    requires MIN_SIZE <= skb.Length
    modifies skb
    ensures skb[34..42] == UdpHead(len, 0)
    ensures skb[..34] == old(skb[..34]) && skb[42..] == old(skb[42..])
  {
    skb[34], skb[35], skb[36], skb[37] := 0x22, 0xb8, 0x27, 0x0f;
    skb[38], skb[39] := Hi(len), Lo(len);
    skb[40], skb[41] := 0, 0;
  }

  /** Lines 241-250. */
  method BuildUdp(skb: array<byte>)
    requires MIN_SIZE <= skb.Length <= MAX_SIZE
    modifies skb
    ensures skb[34..] == Datagram(Filler(skb.Length - MIN_SIZE))
    ensures skb[..34] == old(skb[..34])
  {
    var len: word := skb.Length - 34;
    UdpFields(skb, len);
    var sum := PartialSum(skb[34..]);
    sum := FoldSum(0xc0a8 + 0x5501 + 0xc0a8 + 0x5502 + 17 + len + sum);
    var c: word := 0xffff - sum;
    skb[40], skb[41] := Hi(c), Lo(c);
    assert skb[34..] == (UdpHead(len, 0) + Filler(len - 8))[6 := Hi(c)][7 := Lo(c)];
  }

  /** Two bytes in network order. */
  function Word16(b: seq<byte>, i: nat): nat
    requires i + 1 < |b|
  {
    (b[i] as nat) * 256 + b[i + 1]
  }

  predicate AllBytes(b: seq<byte>, from: nat, to: nat, x: nat)
    requires to <= |b|
  {
    forall i :: from <= i < to ==> b[i] == x
  }

  /** Ethernet: to 80:80:80:80:80:80, from six times the port's low half byte, IPv4. */
  predicate EtherRight(b: seq<byte>, port: byte)
    requires |b| >= 14
  {
    AllBytes(b, 0, 6, 0x80) && AllBytes(b, 6, 12, port % 16 * 16) && Word16(b, 12) == 0x0800
  }

  /** IP: version 4 and five words, no service, the length, the identification, no
      fragment, TTL 64, UDP, from 192.168.85.1 to 192.168.85.2. */
  predicate IpRight(b: seq<byte>)
    requires |b| >= 34
  {
    && b[14] == 0x45 && b[15] == 0 && Word16(b, 16) == |b| - 14 && b[18] == 0x11 && b[19] == 0x11
    && Word16(b, 20) == 0 && b[22] == 64 && b[23] == 17
    && b[26..30] == [192, 168, 85, 1] && b[30..34] == [192, 168, 85, 2]
  }

  /** UDP: the ports and the length, and 0xaa from there to the end. */
  predicate UdpRight(b: seq<byte>)
    requires |b| >= 42
  {
    Word16(b, 34) == 8888 && Word16(b, 36) == 9999 && Word16(b, 38) == |b| - 34 && AllBytes(b, 42, |b|, 0xaa)
  }

  lemma WordInBytes(x: word, b: seq<byte>, i: nat)
    requires i + 1 < |b| && b[i] == Hi(x) && b[i + 1] == Lo(x)
    ensures Word16(b, i) == x
  {}

  lemma Part(f: seq<byte>, from: nat, h: seq<byte>)
    requires from + |h| <= |f| && f[from..from + |h|] == h
    ensures forall j :: from <= j < from + |h| ==> f[j] == h[j - from]
  {
    forall j | from <= j < from + |h| ensures f[j] == h[j - from] {
      assert f[j] == f[from..from + |h|][j - from];
    }
  }

  lemma EtherAt(f: seq<byte>, port: byte)
    requires |f| >= 14 && f[0..14] == Ether(port)
    ensures EtherRight(f, port)
  {
    Part(f, 0, Ether(port));
  }

  lemma IpFieldsAt(f: seq<byte>, totLen: word, check: word)
    requires |f| >= 34 && f[14..34] == Ip(totLen, check)
    ensures f[14] == 0x45 && f[15] == 0 && f[18] == 0x11 && f[19] == 0x11 && f[22] == 64 && f[23] == 17
    ensures Word16(f, 16) == totLen && Word16(f, 20) == 0
  {
    Part(f, 14, Ip(totLen, check));
    WordInBytes(totLen, f, 16);
  }

  lemma IpAddressesAt(f: seq<byte>, totLen: word, check: word)
    requires |f| >= 34 && f[14..34] == Ip(totLen, check)
    ensures f[26..30] == [192, 168, 85, 1] && f[30..34] == [192, 168, 85, 2]
  {
    var h := Ip(totLen, check);
    assert f[26..30] == f[14..34][12..16] && f[30..34] == f[14..34][16..20];
    assert h[12..16] == [192, 168, 85, 1] && h[16..20] == [192, 168, 85, 2];
  }

  lemma UdpAt(f: seq<byte>, check: word)
    requires 42 <= |f| <= MAX_SIZE && f[34..42] == UdpHead(|f| - 34, check) && f[42..] == Filler(|f| - 42)
    ensures UdpRight(f)
  {
    Part(f, 34, UdpHead(|f| - 34, check));
    WordInBytes(|f| - 34, f, 38);
    forall i | 42 <= i < |f| ensures f[i] == 0xaa { assert f[i] == f[42..][i - 42]; }
  }

  /** Where the parts of a frame are. */
  lemma FrameSlices(port: byte, size: nat)
    requires MIN_SIZE <= size <= MAX_SIZE
    ensures var f, payload := TestFrame(port, size), Filler(size - MIN_SIZE);
      && |f| == size && f[0..14] == Ether(port) && f[14..34] == Ip(size - 14, IpCheck(payload))
      && f[34..] == Datagram(payload) && f[34..42] == UdpHead(size - 34, UdpCheck(payload)) && f[42..] == payload
  {
    var f, payload := TestFrame(port, size), Filler(size - MIN_SIZE);
    AfterEther(port, payload);
    assert f[14..34] == f[14..][..20] && f[34..] == f[14..][20..];
    assert f[34..42] == f[34..][..8] && f[42..] == f[34..][8..];
  }

  /** The fields of the frame, byte by byte. */
  lemma FrameBytes(port: byte, size: nat)
    requires MIN_SIZE <= size <= MAX_SIZE
    ensures var f := TestFrame(port, size);
      |f| == size && EtherRight(f, port) && IpRight(f) && UdpRight(f)
  {
    var f, payload := TestFrame(port, size), Filler(size - MIN_SIZE);
    FrameSlices(port, size);
    EtherAt(f, port);
    IpFieldsAt(f, size - 14, IpCheck(payload));
    IpAddressesAt(f, size - 14, IpCheck(payload));
    UdpAt(f, UdpCheck(payload));
  }

  /** The UDP pseudo-header (RFC 768 "Fields") as read from the frame. */
  function PseudoOf(f: seq<byte>): nat
    requires |f| >= 42
  {
    Word16(f, 26) + Word16(f, 28) + Word16(f, 30) + Word16(f, 32) + f[23] + Word16(f, 38)
  }

  /** Both checksums verify over the frame's own bytes (RFC 1071 section 1). */
  lemma FrameVerifies(port: byte, size: nat)
    requires MIN_SIZE <= size <= MAX_SIZE
    ensures var f := TestFrame(port, size);
      Fold(WordSum(f[14..34])) == 0xffff && Fold(PseudoOf(f) + WordSum(f[34..])) == 0xffff
  {
    var f, payload := TestFrame(port, size), Filler(size - MIN_SIZE);
    HeadersVerify(payload);
    FrameSlices(port, size);
    FrameBytes(port, size);
    PseudoIs(f, UdpLen(payload));
  }

  lemma PseudoIs(f: seq<byte>, len: word)
    requires |f| >= 42 && IpRight(f) && Word16(f, 38) == len
    ensures PseudoOf(f) == Pseudo(len)
  {
    assert f[26] == f[26..30][0] && f[27] == f[26..30][1] && f[28] == f[26..30][2] && f[29] == f[26..30][3];
    assert f[30] == f[30..34][0] && f[31] == f[30..34][1] && f[32] == f[30..34][2] && f[33] == f[30..34][3];
  }

  lemma FrameParts(port: byte, size: nat, f: seq<byte>)
    requires MIN_SIZE <= size <= MAX_SIZE && |f| == size
    requires f[..14] == Ether(port) && f[34..] == Datagram(Filler(size - MIN_SIZE))
    requires f[14..34] == Ip(size - 14, Csum(Ip(size - 14, 0)))
    ensures f == TestFrame(port, size)
  {
    assert f == f[..14] + (f[14..34] + f[34..]);
  }

  /** `make_speedtest_pkt`, given whether the device exists and the buffer
      could be allocated. */
  method MakeSpeedtestPkt(port: byte, size: nat, devOk: bool, allocOk: bool)
    returns (ok: bool, skb: array<byte>)
    requires MIN_SIZE <= size <= MAX_SIZE
    ensures ok <==> devOk && allocOk
    ensures fresh(skb) && (ok ==> skb[..] == TestFrame(port, size))
    ensures ok ==> skb.Length == size && EtherRight(skb[..], port) && IpRight(skb[..]) && UdpRight(skb[..])
  {
    skb := new byte[0];
    if !devOk { return false, skb; }
    if !allocOk { return false, skb; }
    skb := new byte[size];
    BuildEther(skb, port);
    BuildUdp(skb);
    assert skb[..14] == skb[..34][..14];
    BuildIp(skb);
    assert skb[..] == skb[..14] + (skb[14..34] + skb[34..]);
    FrameParts(port, size, skb[..]);
    FrameBytes(port, size);
    ok := true;
  }
}
