/** What a text written to the module's proc file means: where its options
    start, how the kernel's simple_strtoul reads each, and that a decimal
    configuration line is read back as the numbers it was printed from. */
module MaclimitProc {

  const U64: int := 0x1_0000_0000_0000_0000
  const PROC_RECEIVE_BUF_SIZE: nat := 20
  const EFAULT: int := 14

  function Digit(c: char): int {
    if '0' <= c <= '9' then c as int - '0' as int
    else if 'a' <= c <= 'f' then c as int - 'a' as int + 10
    else if 'A' <= c <= 'F' then c as int - 'A' as int + 10
    else -1
  }

  /** The accumulator after one more digit, an unsigned long. */
  function Push(acc: nat, base: nat, d: nat): nat {
    (acc * base + d) % 0x1_0000_0000_0000_0000
  }

  lemma PushFits(acc: nat, d: nat)
    requires acc * 10 + d < U64
    ensures Push(acc, 10, d) == acc * 10 + d
  {}

  /** Digits of the given base from position i on, wrapping at 64 bits. */
  function Digits(m: seq<char>, i: nat, base: nat, acc: nat): nat
    decreases |m| - i
  {
    if i < |m| && 0 <= Digit(m[i]) < base then Digits(m, i + 1, base, Push(acc, base, Digit(m[i])))
    else acc
  }

  /** simple_strtoul(&m[i], NULL, 0): a leading 0x or 0 selects the base. */
  function StrToUl(m: seq<char>, i: nat): nat {
    if i < |m| && m[i] == '0' then
      if i + 2 < |m| && (m[i + 1] == 'x' || m[i + 1] == 'X') && Digit(m[i + 2]) >= 0
      then Digits(m, i + 2, 16, 0)
      else Digits(m, i, 8, 0)
    else Digits(m, i, 10, 0)
  }

  function AsLong(u: int): int {
    var v := u % U64;
    if v < 0x8000_0000_0000_0000 then v else v - U64
  }

  function AsInt(u: int): int {
    var v := u % 0x1_0000_0000;
    if v < 0x8000_0000 then v else v - 0x1_0000_0000
  }

  /** An option follows the blank at i. The byte after it is looked at, so the
      memory m extends at least one byte beyond the text. */
  predicate Blank(m: seq<char>, i: nat)
    requires i + 1 < |m|
  {
    m[i] == ' ' && m[i + 1] != '\0' && m[i + 1] != ' '
  }

  /** i is the first blank after position 0, within the text, that starts an option. */
  ghost predicate Second(m: seq<char>, count: nat, i: nat)
    requires count < |m|
  {
    0 < i < count && Blank(m, i) && forall k :: 0 < k < i ==> !Blank(m, k)
  }

  function Dec(n: nat): (s: string)
    ensures |s| > 0
  {
    if n < 10 then [('0' as int + n) as char]
    else Dec(n / 10) + [('0' as int + n % 10) as char]
  }

  predicate DigitsOnly(s: string) {
    forall k :: 0 <= k < |s| ==> '0' <= s[k] <= '9'
  }

  lemma {:induction false} DecShape(n: nat)
    ensures DigitsOnly(Dec(n))
    ensures n > 0 ==> Dec(n)[0] != '0'
    ensures n == 0 ==> Dec(n) == "0"
  {
    if n >= 10 { DecShape(n / 10); }
  }

  lemma OneDigit(m: seq<char>, i: nat, d: nat, acc: nat)
    requires d < 10 && i < |m| && m[i] == ('0' as int + d) as char && acc * 10 + d < U64
    ensures Digits(m, i, 10, acc) == Digits(m, i + 1, 10, acc * 10 + d)
  {
    assert Digit(m[i]) == d;
    PushFits(acc, d);
  }

  /** Reading past a printed number leaves the number in the accumulator. */
  lemma {:induction false} DigitsOfDec(m: seq<char>, i: nat, n: nat)
    requires n < U64 && i + |Dec(n)| <= |m| && m[i..i + |Dec(n)|] == Dec(n)
    ensures Digits(m, i, 10, 0) == Digits(m, i + |Dec(n)|, 10, n)
  {
    var last := i + |Dec(n)| - 1;
    assert m[last] == m[i..i + |Dec(n)|][|Dec(n)| - 1] == ('0' as int + n % 10) as char;
    if n >= 10 {
      var d := Dec(n / 10);
      assert m[i..i + |d|] == m[i..i + |Dec(n)|][..|d|] == d;
      DigitsOfDec(m, i, n / 10);
    }
    OneDigit(m, last, n % 10, n / 10);
  }

  /** A character that ends a printed number. */
  predicate Ends(c: char) {
    Digit(c) < 0 && c != 'x' && c != 'X'
  }

  /** A printed number that is not followed by a digit is read back. */
  lemma ReadBack(m: seq<char>, i: nat, n: nat)
    requires n < U64 && i + |Dec(n)| < |m| && m[i..i + |Dec(n)|] == Dec(n)
    requires Ends(m[i + |Dec(n)|])
    ensures StrToUl(m, i) == n
  {
    DecShape(n);
    assert m[i] == m[i..i + |Dec(n)|][0];
    if n > 0 {
      DigitsOfDec(m, i, n);
    } else {
      assert Digits(m, i + 1, 8, 0) == 0;
    }
  }

  function Blanks(k: nat): (s: string)
    ensures |s| == k && forall i :: 0 <= i < k ==> s[i] == ' '
  {
    seq(k, _ => ' ')
  }

  function Line(n: nat, k: nat, e: nat): string {
    Dec(n) + Blanks(k) + Dec(e)
  }

  function Pow10(k: nat): nat {
    if k == 0 then 1 else 10 * Pow10(k - 1)
  }

  lemma {:induction false} DecLength(n: nat)
    ensures n < Pow10(|Dec(n)|)
  {
    if n >= 10 { DecLength(n / 10); }
  }

  lemma Pow10Monotone(a: nat, b: nat)
    requires a <= b
    ensures Pow10(a) <= Pow10(b)
    decreases b
  {
    if a < b { Pow10Monotone(a, b - 1); }
  }

  /** A number printed in at most 18 characters fits any 64-bit type. */
  lemma ShortFits(n: nat)
    requires |Dec(n)| <= 18
    ensures n < 0x8000_0000_0000_0000
  {
    DecLength(n);
    Pow10Monotone(|Dec(n)|, 18);
    assert Pow10(3) == 1000;
    assert Pow10(6) == 1000 * Pow10(3);
    assert Pow10(9) == 1000 * Pow10(6);
    assert Pow10(12) == 1000 * Pow10(9);
    assert Pow10(15) == 1000 * Pow10(12);
    assert Pow10(18) == 1000 * Pow10(15);
  }

  lemma Pieces(a: string, b: string, c: string, d: string)
    ensures var m := a + b + c + d; var i := |a|; var j := |a| + |b|; var k := |a| + |b| + |c|;
            m[..i] == a && m[i..j] == b && m[j..k] == c && (|d| > 0 ==> m[k] == d[0])
  {}

  lemma Blanked(m: string, d: nat, k: nat)
    requires d + k <= |m| && m[d..d + k] == Blanks(k)
    ensures forall i :: d <= i < d + k ==> m[i] == ' '
  {
    forall i | d <= i < d + k ensures m[i] == ' ' {
      assert m[i] == m[d..d + k][i - d];
    }
  }

  /** The pieces of a configuration line followed by anything. */
  lemma LineAt(n: nat, k: nat, e: nat, tail: seq<char>)
    ensures var m := Line(n, k, e) + tail; var d := |Dec(n)|;
      && m[..d] == Dec(n)
      && (forall i :: d <= i < d + k ==> m[i] == ' ')
      && m[d + k..d + k + |Dec(e)|] == Dec(e)
      && (tail != [] ==> m[d + k + |Dec(e)|] == tail[0])
  {
    var a, c := Dec(n), Dec(e);
    assert Line(n, k, e) + tail == a + Blanks(k) + c + tail;
    Pieces(a, Blanks(k), c, tail);
    Blanked(Line(n, k, e) + tail, |a|, k);
  }

  lemma SecondOption(n: nat, k: nat, e: nat, count: nat, tail: seq<char>)
    requires k >= 1 && |Line(n, k, e)| <= count < |Line(n, k, e)| + |tail|
    ensures Second(Line(n, k, e) + tail, count, |Dec(n)| + k - 1)
  {
    var m := Line(n, k, e) + tail;
    var d := |Dec(n)|;
    LineAt(n, k, e, tail);
    DecShape(n);
    DecShape(e);
    assert m[d + k] == m[d + k..d + k + |Dec(e)|][0];
    forall i | 0 < i < d + k - 1 ensures !Blank(m, i) {
      if i < d { assert m[i] == m[..d][i]; } else { assert m[i + 1] == ' '; }
    }
  }

  lemma Values(n: nat, k: nat, e: nat, tail: seq<char>)
    requires k >= 1 && |tail| >= 1 && Ends(tail[0]) && n < U64 && e < U64
    ensures StrToUl(Line(n, k, e) + tail, 0) == n
    ensures StrToUl(Line(n, k, e) + tail, |Dec(n)| + k) == e
  {
    var m := Line(n, k, e) + tail;
    LineAt(n, k, e, tail);
    assert m[0..0 + |Dec(n)|] == m[..|Dec(n)|];
    ReadBack(m, 0, n);
    ReadBack(m, |Dec(n)| + k, e);
  }

  lemma Truncation(u: nat)
    ensures AsInt(u) == u <==> u < 0x8000_0000
    ensures u < 0x8000_0000_0000_0000 ==> AsLong(u) == u
  {}

  /** Any text of at most 20 characters made of a number, blanks and a number,
      with or without a newline, when what follows the second number ends it: the
      limit is read back exactly, the second option starts at the last blank, and
      the switch is read back exactly when it fits an int. */
  lemma LineReadBack(n: nat, k: nat, e: nat, count: nat, tail: seq<char>)
    requires k >= 1 && |Line(n, k, e)| <= count <= PROC_RECEIVE_BUF_SIZE
    requires count < |Line(n, k, e)| + |tail| && Ends(tail[0])
    ensures AsLong(StrToUl(Line(n, k, e) + tail, 0)) == n
    ensures Second(Line(n, k, e) + tail, count, |Dec(n)| + k - 1)
    ensures AsInt(StrToUl(Line(n, k, e) + tail, |Dec(n)| + k)) == e <==> e < 0x8000_0000
  {
    ShortFits(n);
    ShortFits(e);
    Truncation(n);
    Truncation(e);
    Values(n, k, e, tail);
    SecondOption(n, k, e, count, tail);
  }

  /** A number followed by blanks and the end of the text is the limit alone. */
  lemma LimitAlone(n: nat, k: nat, tail: seq<char>)
    requires |Dec(n)| <= 18 && tail != [] && tail[0] == '\0'
    ensures var m := Dec(n) + Blanks(k) + tail;
      AsLong(StrToUl(m, 0)) == n && forall i: nat :: 0 < i < |Dec(n)| + k ==> !Blank(m, i)
  {
    var m, d := Dec(n) + Blanks(k) + tail, |Dec(n)|;
    assert m == Dec(n) + Blanks(k) + [] + tail;
    Pieces(Dec(n), Blanks(k), [], tail);
    Blanked(m, d, k);
    DecShape(n);
    ShortFits(n);
    Truncation(n);
    assert m[0..0 + d] == m[..d];
    ReadBack(m, 0, n);
    forall i: nat | 0 < i < d + k ensures !Blank(m, i) {
      if i < d { assert m[i] == m[..d][i]; } else if i < d + k - 1 { assert m[i + 1] == ' '; }
    }
  }
}
