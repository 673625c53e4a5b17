/** The Internet checksum (RFC 1071 section 1) over bytes in network order: the
    loop the kernel's helpers run, its meaning modulo 65535, and exactly which
    changes of a buffer it misses. */
module Checksum {
  import opened Octets

  type word = n: int | 0 <= n < 0x1_0000

  function Join(hi: byte, lo: byte): word {
    hi * 256 + lo
  }

  /** Sum of the 16-bit words of b, an odd last byte padded with zero. */
  function WordSum(b: seq<byte>): nat {
    if |b| == 0 then 0
    else if |b| == 1 then Join(b[0], 0)
    else Join(b[0], b[1]) + WordSum(b[2..])
  }

  /** An odd last byte is summed as if a zero byte followed (RFC 1071 section 1). */
  lemma {:induction false} OddPadded(b: seq<byte>)
    requires |b| % 2 == 1
    ensures WordSum(b) == WordSum(b + [0])
  {
    if |b| > 1 {
      assert (b + [0])[2..] == b[2..] + [0];
      OddPadded(b[2..]);
    } else {
      assert (b + [0])[2..] == [];
    }
  }

  /** End-around carries until the sum fits 16 bits. */
  function Fold(x: nat): word {
    if x < 0x1_0000 then x else Fold(x % 0x1_0000 + x / 0x1_0000)
  }

  /** ip_compute_csum. */
  function Csum(b: seq<byte>): word {
    0xffff - Fold(WordSum(b))
  }

  /** Folding keeps the residue modulo 65535 and tells zero from non-zero. */
  lemma {:induction false} FoldMeans(x: nat)
    ensures Fold(x) % 0xffff == x % 0xffff
    ensures Fold(x) == 0 <==> x == 0
  {
    if x >= 0x1_0000 {
      var y := x % 0x1_0000 + x / 0x1_0000;
      FoldMeans(y);
      assert x == y + 0xffff * (x / 0x1_0000);
      ModPlus(y, x / 0x1_0000);
    }
  }

  lemma ModPlus(y: nat, k: nat)
    ensures (y + 0xffff * k) % 0xffff == y % 0xffff
  {
    assert y + 0xffff * k == 0xffff * (y / 0xffff + k) + y % 0xffff;
  }

  lemma FoldSame(x: nat, y: nat)
    ensures Fold(x) == Fold(y) <==> x % 0xffff == y % 0xffff && (x == 0 <==> y == 0)
  {
    FoldMeans(x);
    FoldMeans(y);
  }

  /** Storing the complement of a folded sum makes the sum fold to all ones. */
  lemma ComplementVerifies(s: nat)
    ensures Fold(s + (0xffff - Fold(s))) == 0xffff
  {
    FoldMeans(s);
    FoldMeans(s + (0xffff - Fold(s)));
    var q := s / 0xffff - Fold(s) / 0xffff;
    assert s + (0xffff - Fold(s)) == 0xffff * (q + 1);
    ModPlus(0, q + 1);
  }

  lemma {:induction false} WordSumAppend(a: seq<byte>, b: seq<byte>)
    requires |a| % 2 == 0
    ensures WordSum(a + b) == WordSum(a) + WordSum(b)
    decreases |a|
  {
    if a == [] {
      assert a + b == b;
    } else {
      assert (a + b)[2..] == a[2..] + b;
      WordSumAppend(a[2..], b);
    }
  }

  /** What one byte contributes. */
  function Weight(i: nat): nat {
    if i % 2 == 0 then 256 else 1
  }

  lemma {:induction false} WordSumUpdate(b: seq<byte>, i: nat, x: byte)
    requires i < |b|
    ensures WordSum(b[i := x]) == WordSum(b) + (x - b[i]) * Weight(i)
  {
    if i >= 2 {
      assert b[i := x][2..] == b[2..][i - 2 := x];
      WordSumUpdate(b[2..], i - 2, x);
      assert Weight(i - 2) == Weight(i);
    } else if |b| >= 2 {
      assert b[i := x][2..] == b[2..];
    }
  }

  /** Two buffers get the same checksum exactly when their word sums agree
      modulo 65535 and are both zero or both not. */
  lemma SameCsum(a: seq<byte>, b: seq<byte>)
    ensures Csum(a) == Csum(b) <==>
            WordSum(a) % 0xffff == WordSum(b) % 0xffff && (WordSum(a) == 0 <==> WordSum(b) == 0)
  {
    FoldSame(WordSum(a), WordSum(b));
  }

  lemma ModApart(s: nat, t: nat)
    requires s != t && -0xffff < s - t < 0xffff
    ensures s % 0xffff != t % 0xffff
  {
    var q := s / 0xffff - t / 0xffff;
    assert s - t == 0xffff * q + (s % 0xffff - t % 0xffff);
  }

  /** A change of a single byte never goes unnoticed. */
  lemma OneByteChangesCsum(b: seq<byte>, i: nat, x: byte)
    requires i < |b| && x != b[i]
    ensures Csum(b[i := x]) != Csum(b)
  {
    WordSumUpdate(b, i, x);
    var d := (x - b[i]) * Weight(i);
    assert d != 0 && -0xffff < d < 0xffff;
    ModApart(WordSum(b[i := x]), WordSum(b));
    SameCsum(b[i := x], b);
  }

  lemma ReplaceWord(b: seq<byte>, i: nat, hi: byte, lo: byte)
    requires i % 2 == 0 && i + 1 < |b|
    ensures WordSum(b[i := hi][i + 1 := lo]) == WordSum(b) - Join(b[i], b[i + 1]) + Join(hi, lo)
  {
    WordSumUpdate(b, i, hi);
    WordSumUpdate(b[i := hi], i + 1, lo);
    assert Weight(i) == 256 && Weight(i + 1) == 1;
  }

  /** An exchange of two whole words does, whatever they hold. */
  lemma WordExchangeIsMissed(b: seq<byte>, i: nat, j: nat)
    requires i % 2 == 0 && j % 2 == 0 && i + 1 < j && j + 1 < |b|
    ensures Csum(b[i := b[j]][i + 1 := b[j + 1]][j := b[i]][j + 1 := b[i + 1]]) == Csum(b)
  {
    var c := b[i := b[j]][i + 1 := b[j + 1]];
    ReplaceWord(b, i, b[j], b[j + 1]);
    ReplaceWord(c, j, b[i], b[i + 1]);
    assert c[j] == b[j] && c[j + 1] == b[j + 1];
  }

  /** skb_checksum: the summing loop (RFC 1071 section 4.1). */
  method PartialSum(b: seq<byte>) returns (sum: nat)
    ensures sum == WordSum(b)
  {
    sum := 0;
    var i := 0;
    while i + 1 < |b|
      invariant 0 <= i <= |b|
      invariant sum + WordSum(b[i..]) == WordSum(b)
    {
      sum := sum + Join(b[i], b[i + 1]);
      assert b[i..][2..] == b[i + 2..];
      i := i + 2;
    }
    if i < |b| {
      sum := sum + Join(b[i], 0);
    }
  }

  method FoldSum(x: nat) returns (sum: nat)
    ensures sum == Fold(x)
  {
    sum := x;
    while sum >= 0x1_0000
      invariant Fold(sum) == Fold(x)
    {
      sum := sum % 0x1_0000 + sum / 0x1_0000;
    }
  }

  method ComputeCsum(b: seq<byte>) returns (c: word)
    ensures c == Csum(b)
  {
    var sum := PartialSum(b);
    sum := FoldSum(sum);
    c := 0xffff - sum;
  }
}
