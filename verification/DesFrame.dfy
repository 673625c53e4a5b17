/** The credential frame: padding, triple encryption block by block over an
    abstract block cipher, framing and hex dump, each with its inverse. */
module DesFrame {
  import opened Octets

  type Eight = b: seq<byte> | |b| == 8 witness [0, 0, 0, 0, 0, 0, 0, 0]
  type Digest = b: seq<byte> | |b| == 16 witness [0, 0, 0, 0, 0, 0, 0, 0, 0, 0, 0, 0, 0, 0, 0, 0]
  type Hash = seq<byte> -> Digest

  /** A single block cipher under every key. */
  datatype Cipher = Cipher(enc: (Eight, Eight) -> Eight, dec: (Eight, Eight) -> Eight)

  ghost predicate Bijective(c: Cipher) {
    forall k: Eight, b: Eight :: c.dec(k, c.enc(k, b)) == b && c.enc(k, c.dec(k, b)) == b
  }

  const BLOCK: nat := 8
  const HEAD: nat := 33
  const ZERO_KEY: Eight := [0, 0, 0, 0, 0, 0, 0, 0]

  /** DES_ecb3_encrypt: encrypt, decrypt, encrypt. */
  function Encrypt3(c: Cipher, k1: Eight, k2: Eight, k3: Eight, b: Eight): Eight {
    c.enc(k3, c.dec(k2, c.enc(k1, b)))
  }

  function Decrypt3(c: Cipher, k1: Eight, k2: Eight, k3: Eight, b: Eight): Eight {
    c.dec(k1, c.enc(k2, c.dec(k3, b)))
  }

  lemma Inverse3(c: Cipher, k1: Eight, k2: Eight, k3: Eight, b: Eight)
    requires Bijective(c)
    ensures Decrypt3(c, k1, k2, k3, Encrypt3(c, k1, k2, k3, b)) == b
  {}

  /** With one key for all three steps it is single encryption, and a key used
      twice in a row cancels out: the middle step decrypts. */
  lemma Single3(c: Cipher, k: Eight, k2: Eight, b: Eight)
    requires Bijective(c)
    ensures Encrypt3(c, k, k, k2, b) == c.enc(k2, b) && Encrypt3(c, k2, k, k, b) == c.enc(k2, b)
  {}

  // ----- padding

  function PadLength(n: nat): nat { if n == 0 then 0 else BLOCK - n % BLOCK }

  function Pad(b: seq<byte>): seq<byte> {
    b + seq(PadLength(|b|), _ => PadLength(|b|))
  }

  /** RFC 5652 section 6.3 for blocks of eight. */
  function RfcPad(b: seq<byte>): seq<byte> {
    b + seq(BLOCK - |b| % BLOCK, _ => BLOCK - |b| % BLOCK)
  }

  function Unpad(b: seq<byte>): seq<byte> {
    if b == [] || b[|b| - 1] as int > |b| then [] else b[..|b| - b[|b| - 1]]
  }

  /** Whole blocks, the standard padding exactly for non-empty input, and undone. */
  lemma PadMeans(b: seq<byte>)
    ensures |Pad(b)| % BLOCK == 0 && |Pad(b)| <= |b| + BLOCK
    ensures Pad(b) == RfcPad(b) <==> b != []
    ensures Unpad(Pad(b)) == b
    ensures |Pad(b)| >= |b| && Pad(b)[..|b|] == b && forall i :: |b| <= i < |Pad(b)| ==> Pad(b)[i] == |Pad(b)| - |b|
    ensures b != [] ==> |Pad(b)| > |b|
  {
    var p := Pad(b);
    if b == [] {
      assert |RfcPad(b)| == 8;
    } else {
      assert p[|p| - 1] == PadLength(|b|);
      assert p[..|b|] == b;
    }
  }

  lemma PadInjective(a: seq<byte>, b: seq<byte>)
    requires Pad(a) == Pad(b)
    ensures a == b
  {
    PadMeans(a);
    PadMeans(b);
  }

  // ----- blocks

  function EncryptBlocks(c: Cipher, k1: Eight, k2: Eight, k3: Eight, data: seq<byte>): (r: seq<byte>)
    ensures |r| == |data| / BLOCK * BLOCK
  {
    if |data| < BLOCK then []
    else Encrypt3(c, k1, k2, k3, data[..BLOCK]) + EncryptBlocks(c, k1, k2, k3, data[BLOCK..])
  }

  function DecryptBlocks(c: Cipher, k1: Eight, k2: Eight, k3: Eight, data: seq<byte>): seq<byte> {
    if |data| < BLOCK then []
    else Decrypt3(c, k1, k2, k3, data[..BLOCK]) + DecryptBlocks(c, k1, k2, k3, data[BLOCK..])
  }

  lemma {:induction false} BlocksInverse(c: Cipher, k1: Eight, k2: Eight, k3: Eight, data: seq<byte>)
    requires Bijective(c) && |data| % BLOCK == 0
    ensures DecryptBlocks(c, k1, k2, k3, EncryptBlocks(c, k1, k2, k3, data)) == data
  {
    if |data| >= BLOCK {
      var first: seq<byte> := Encrypt3(c, k1, k2, k3, data[..BLOCK]);
      var rest: seq<byte> := EncryptBlocks(c, k1, k2, k3, data[BLOCK..]);
      assert (first + rest)[..BLOCK] == first && (first + rest)[BLOCK..] == rest;
      Inverse3(c, k1, k2, k3, data[..BLOCK]);
      BlocksInverse(c, k1, k2, k3, data[BLOCK..]);
      assert data == data[..BLOCK] + data[BLOCK..];
    }
  }

  /** One more block at the end, as the loop encrypts them. */
  lemma {:induction false} BlocksAppend(c: Cipher, k1: Eight, k2: Eight, k3: Eight, data: seq<byte>, b: Eight)
    requires |data| % BLOCK == 0
    ensures EncryptBlocks(c, k1, k2, k3, data + b)
         == EncryptBlocks(c, k1, k2, k3, data) + Encrypt3(c, k1, k2, k3, b)
    decreases |data|
  {
    if data == [] {
      assert data + b == b && b[..BLOCK] == b && b[BLOCK..] == [];
    } else {
      assert (data + b)[..BLOCK] == data[..BLOCK] && (data + b)[BLOCK..] == data[BLOCK..] + b;
      BlocksAppend(c, k1, k2, k3, data[BLOCK..], b);
    }
  }

  /** Block i of the result is block i of the data, encrypted on its own. */
  lemma {:induction false} BlockAt(c: Cipher, k1: Eight, k2: Eight, k3: Eight, data: seq<byte>, i: nat)
    requires |data| % BLOCK == 0 && BLOCK * i + BLOCK <= |data|
    ensures EncryptBlocks(c, k1, k2, k3, data)[BLOCK * i..BLOCK * i + BLOCK]
         == c.enc(k3, c.dec(k2, c.enc(k1, data[BLOCK * i..BLOCK * i + BLOCK])))
    decreases i
  {
    var first: seq<byte> := Encrypt3(c, k1, k2, k3, data[..BLOCK]);
    var rest: seq<byte> := EncryptBlocks(c, k1, k2, k3, data[BLOCK..]);
    var all := first + rest;
    if i == 0 {
      assert all[..BLOCK] == first && data[0..BLOCK] == data[..BLOCK];
    } else {
      BlockAt(c, k1, k2, k3, data[BLOCK..], i - 1);
      var at := BLOCK * (i - 1);
      assert all[at + BLOCK..at + BLOCK + BLOCK] == rest[at..at + BLOCK];
      assert data[at + BLOCK..at + BLOCK + BLOCK] == data[BLOCK..][at..at + BLOCK];
    }
  }

  // ----- the frame

  function Frame(c: Cipher, md5: Hash, random: Eight, time: Eight, user: seq<byte>, password: seq<byte>): seq<byte> {
    [1] + random + time + md5(random + password + time) + EncryptBlocks(c, random, time, ZERO_KEY, Pad(user))
  }

  /** What a receiver that shares the cipher reads: the keys are in the clear. */
  function ReadUser(c: Cipher, frame: seq<byte>): seq<byte>
    requires |frame| >= HEAD
  {
    Unpad(DecryptBlocks(c, frame[1..9], frame[9..17], ZERO_KEY, frame[HEAD..]))
  }

  lemma FrameParts(c: Cipher, md5: Hash, random: Eight, time: Eight, user: seq<byte>, password: seq<byte>)
    ensures var f := Frame(c, md5, random, time, user, password);
      && |f| == HEAD + |Pad(user)| && f[0] == 1 && f[1..9] == random && f[9..17] == time
      && f[17..HEAD] == md5(random + password + time)
      && f[HEAD..] == EncryptBlocks(c, random, time, ZERO_KEY, Pad(user))
  {
    PadMeans(user);
  }

  /** The frame byte by byte: type 1, random, time, the digest, and each block of
      the padded user name under the keys random, time and zero. */
  ghost predicate FrameRight(c: Cipher, md5: Hash, random: Eight, time: Eight, user: seq<byte>, password: seq<byte>,
                             f: seq<byte>)
  {
    && |f| == 33 + |Pad(user)| && f[0] == 1 && f[1..9] == random && f[9..17] == time
    && f[17..33] == md5(random + password + time)
    && forall i: nat :: 8 * i + 8 <= |Pad(user)| ==> EncryptedAt(c, random, time, Pad(user), f[33..], i)
  }

  predicate EncryptedAt(c: Cipher, random: Eight, time: Eight, data: seq<byte>, out: seq<byte>, i: nat)
    requires 8 * i + 8 <= |data| == |out|
  {
    out[8 * i..8 * i + 8] == c.enc(ZERO_KEY, c.dec(time, c.enc(random, data[8 * i..8 * i + 8])))
  }

  lemma FrameBytes(c: Cipher, md5: Hash, random: Eight, time: Eight, user: seq<byte>, password: seq<byte>)
    ensures FrameRight(c, md5, random, time, user, password, Frame(c, md5, random, time, user, password))
  {
    FrameParts(c, md5, random, time, user, password);
    PadMeans(user);
    var f := Frame(c, md5, random, time, user, password);
    forall i: nat | 8 * i + 8 <= |Pad(user)| ensures EncryptedAt(c, random, time, Pad(user), f[33..], i) {
      BlockAt(c, random, time, ZERO_KEY, Pad(user), i);
    }
  }

  /** For every user name and password: the frame gives back the user name, and
      its digest is the hash of random, password and time as found in it. */
  lemma FrameRoundTrip(c: Cipher, md5: Hash, random: Eight, time: Eight, user: seq<byte>, password: seq<byte>)
    requires Bijective(c)
    ensures var f := Frame(c, md5, random, time, user, password);
      && |f| >= HEAD && ReadUser(c, f) == user
      && f[17..HEAD] == md5(f[1..9] + password + f[9..17])
  {
    FrameParts(c, md5, random, time, user, password);
    PadMeans(user);
    BlocksInverse(c, random, time, ZERO_KEY, Pad(user));
  }

  // ----- the hex dump

  function HexDigit(n: nat): char
    requires n < 16
  { if n < 10 then ('0' as int + n) as char else ('a' as int + n - 10) as char }

  function HexValue(c: char): nat {
    if '0' <= c <= '9' then c as int - '0' as int
    else if 'a' <= c <= 'f' then c as int - 'a' as int + 10
    else 0
  }

  function Hex(b: seq<byte>): (s: string)
    ensures |s| == 2 * |b|
  {
    if b == [] then "" else Hex(b[..|b| - 1]) + [HexDigit(b[|b| - 1] / 16), HexDigit(b[|b| - 1] % 16)]
  }

  function Unhex(s: string): seq<byte> {
    if |s| < 2 then [] else Unhex(s[..|s| - 2]) + [HexValue(s[|s| - 2]) * 16 + HexValue(s[|s| - 1])]
  }

  lemma HexDigitInverse(n: nat)
    requires n < 16
    ensures HexValue(HexDigit(n)) == n
  {}

  /** Two lower-case hexadecimal digits for each byte, in order. */
  lemma {:induction false} HexAt(b: seq<byte>, i: nat)
    requires i < |b|
    ensures Hex(b)[2 * i] == "0123456789abcdef"[b[i] / 16] && Hex(b)[2 * i + 1] == "0123456789abcdef"[b[i] % 16]
    decreases |b|
  {
    var init, last := b[..|b| - 1], b[|b| - 1];
    LowerCase(last / 16);
    LowerCase(last % 16);
    if i < |init| {
      HexAt(init, i);
      assert Hex(b)[2 * i] == Hex(init)[2 * i] && Hex(b)[2 * i + 1] == Hex(init)[2 * i + 1];
    }
  }

  lemma LowerCase(n: nat)
    requires n < 16
    ensures HexDigit(n) == "0123456789abcdef"[n]
  {}

  lemma {:induction false} HexRoundTrip(b: seq<byte>)
    ensures Unhex(Hex(b)) == b
  {
    if b != [] {
      var init, last := b[..|b| - 1], b[|b| - 1];
      HexRoundTrip(init);
      HexDigitInverse(last / 16);
      HexDigitInverse(last % 16);
      assert Hex(b)[..|Hex(b)| - 2] == Hex(init);
    }
  }

  /** From the dumped text back to the user name, and to the digest's inputs. */
  lemma DumpRoundTrip(c: Cipher, md5: Hash, random: Eight, time: Eight, user: seq<byte>, password: seq<byte>)
    requires Bijective(c)
    ensures var f := Unhex(Hex(Frame(c, md5, random, time, user, password)));
            && |f| == HEAD + |Pad(user)| && ReadUser(c, f) == user
            && f[17..HEAD] == md5(f[1..9] + password + f[9..17])
  {
    HexRoundTrip(Frame(c, md5, random, time, user, password));
    FrameParts(c, md5, random, time, user, password);
    FrameRoundTrip(c, md5, random, time, user, password);
  }
}
