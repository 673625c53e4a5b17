/** The frame as the program assembles it in fixed-size buffers. Random bytes
    and the clock are inputs; a C string is the bytes before its terminator. */
module DesMessage {
  import opened Octets
  import opened DesFrame

  const BUFFER: nat := 500
  const HASH_BUFFER: nat := 256

  /** "admin/admin". */
  const ADMIN: seq<byte> := [97, 100, 109, 105, 110, 47, 97, 100, 109, 105, 110]

  method CreateEncryptKey(random: Eight, timeNow: Eight, str: array<byte>)
    requires str.Length >= BUFFER
    modifies str
    ensures str[..24] == random + timeNow + ZERO_KEY
  {
    Memset(str, 0, 0, BUFFER);
    Memcpy(str, 0, random);
    assert str[..8] == str[0..8] == random;
    ghost var before := str[..];
    Memcpy(str, 8, timeNow);
    assert forall i :: 16 <= i < 24 ==> before[i] == before[8..][i - 8] == 0;
    assert forall i :: 16 <= i < 24 ==> str[i] == str[16..][i - 16] == before[i];
    assert str[..24] == str[..8] + str[8..16] + str[16..24];
  }

  method CreateOnuKey(md5: Hash, random: Eight, timeNow: Eight, password: seq<byte>) returns (key: Digest)
    requires 16 + |password| <= HASH_BUFFER
    ensures key == md5(random + password + timeNow)
  {
    var data := new byte[HASH_BUFFER];
    Memset(data, 0, 0, HASH_BUFFER);
    Memcpy(data, 0, random);
    assert data[..8] == data[0..8] == random;
    Memcpy(data, 8, password);
    var n := 8 + |password|;
    assert data[..n] == data[..8] + data[8..n] == random + password;
    Memcpy(data, n, timeNow);
    assert data[..n + 8] == data[..n] + data[n..n + 8];
    key := md5(data[..n + 8]);
  }

  method SetPkcs7Padding(input: seq<byte>, str: array<byte>) returns (blocks: nat)
    requires |Pad(input)| <= str.Length
    modifies str
    ensures 8 * blocks == |Pad(input)| && str[..8 * blocks] == Pad(input)
    ensures str[8 * blocks..] == old(str[8 * blocks..])
  {
    PadMeans(input);
    var len := |input|;
    var p := 0;
    if len != 0 {
      p := 8 - len % 8;
    }
    Memcpy(str, 0, input);
    assert str[..len] == input;
    var i := 0;
    while i < p
      invariant 0 <= i <= p && len == |input| + i
      invariant str[..len] == Pad(input)[..len]
      invariant str[len..] == old(str[len..])
    {
      str[len] := p;
      len := len + 1;
      i := i + 1;
      assert str[..len] == str[..len - 1] + [str[len - 1]];
    }
    blocks := len / 8;
  }

  /** DES_set_key_unchecked for each eight bytes of the key. */
  function Schedules(key: seq<byte>): seq<Eight>
    requires |key| == 24
  {
    [key[0..8], key[8..16], key[16..24]]
  }

  lemma SchedulesOf(a: Eight, b: Eight, c: Eight)
    ensures Schedules(a + b + c) == [a, b, c]
  {
    var key := a + b + c;
    assert key[0..8] == a && key[8..16] == b && key[16..24] == c;
  }

  method CreateEncryptData(c: Cipher, random: Eight, timeNow: Eight, username: seq<byte>, str: array<byte>)
    returns (len: nat)
    requires str.Length >= BUFFER && |Pad(username)| <= BUFFER
    modifies str
    ensures len == |Pad(username)|
    ensures str[..len] == EncryptBlocks(c, random, timeNow, ZERO_KEY, Pad(username))
  {
    var encryptKey := new byte[BUFFER];
    var pkcs7Str := new byte[BUFFER];
    Memset(str, 0, 0, BUFFER);
    CreateEncryptKey(random, timeNow, encryptKey);
    SchedulesOf(random, timeNow, ZERO_KEY);
    var ks := Schedules(encryptKey[..24]);
    var count := SetPkcs7Padding(username, pkcs7Str);
    EncryptInto(c, ks[0], ks[1], ks[2], pkcs7Str, count, str);
    len := count * 8;
  }

  /** Lines 101-104. */
  method EncryptInto(c: Cipher, k1: Eight, k2: Eight, k3: Eight, input: array<byte>, count: nat, str: array<byte>)
    requires 8 * count <= input.Length && 8 * count <= str.Length && input != str
    modifies str
    ensures str[..8 * count] == EncryptBlocks(c, k1, k2, k3, input[..8 * count])
  {
    ghost var data := input[..];
    var i := 0;
    while i < count
      invariant 0 <= i <= count && input[..] == data
      invariant str[..8 * i] == EncryptBlocks(c, k1, k2, k3, data[..8 * i])
    {
      var block: Eight := input[8 * i..8 * i + 8];
      assert data[..8 * (i + 1)] == data[..8 * i] + block;
      BlocksAppend(c, k1, k2, k3, data[..8 * i], block);
      Memcpy(str, 8 * i, Encrypt3(c, k1, k2, k3, block));
      assert str[..8 * (i + 1)] == str[..8 * i] + str[8 * i..8 * i + 8];
      i := i + 1;
    }
    assert data[..8 * count] == input[..8 * count];
  }

  method CreateEncryptMessage(c: Cipher, md5: Hash, random: Eight, timeNow: Eight,
                              username: seq<byte>, password: seq<byte>, str: array<byte>) returns (len: nat)
    requires str.Length >= BUFFER && HEAD + |Pad(username)| <= BUFFER && 16 + |password| <= HASH_BUFFER
    modifies str
    ensures len == HEAD + |Pad(username)| && str[..len] == Frame(c, md5, random, timeNow, username, password)
    ensures FrameRight(c, md5, random, timeNow, username, password, str[..len])
  {
    var encryData := new byte[BUFFER];
    Memset(str, 0, 0, BUFFER);
    str[0] := 1;
    Memcpy(str, 1, random);
    assert str[..9] == [1] + random;
    Memcpy(str, 9, timeNow);
    assert str[..17] == str[..9] + str[9..17];
    var onuKey := CreateOnuKey(md5, random, timeNow, password);
    Memcpy(str, 17, onuKey);
    assert str[..33] == str[..17] + str[17..33];
    len := CreateEncryptData(c, random, timeNow, username, encryData);
    Memcpy(str, 33, encryData[..len]);
    assert str[..33 + len] == str[..33] + str[33..33 + len];
    len := len + 33;
    FrameBytes(c, md5, random, timeNow, username, password);
  }

  /** The serial number cut or zero-filled to 24 bytes. */
  function Serial24(serial: seq<byte>): (b: seq<byte>)
    ensures |b| == 24
  {
    if |serial| > 24 then serial[..24] else serial + seq(24 - |serial|, _ => 0)
  }

  predicate Framed(user: seq<byte>, mode: int) {
    mode == 3 || (mode == 2 && user != [])
  }

  /** What is sent in each mode. */
  function Message(c: Cipher, md5: Hash, random: Eight, time: Eight, user: seq<byte>, password: seq<byte>,
                   serial: seq<byte>, mode: int): seq<byte>
  {
    if Framed(user, mode) then Frame(c, md5, random, time, user, password)
    else if mode == 2 then Serial24(serial) + ADMIN
    else []
  }

  /** Without a user name: the serial number in 24 bytes, zeros behind it if it is
      shorter, and "admin/admin". */
  predicate SerialRight(serial: seq<byte>, m: seq<byte>) {
    && |m| == 35
    && (forall i :: 0 <= i < 24 ==> m[i] == if i < |serial| then serial[i] else 0)
    && m[24..35] == [97, 100, 109, 105, 110, 47, 97, 100, 109, 105, 110]
  }

  lemma SerialBytes(serial: seq<byte>)
    ensures SerialRight(serial, Serial24(serial) + ADMIN)
  {
    var m := Serial24(serial) + ADMIN;
    assert m[24..35] == ADMIN;
  }

  /** From the message alone: the user name, and a digest that is the hash of its
      random bytes, the password and its time bytes. */
  predicate GivesBack(c: Cipher, md5: Hash, user: seq<byte>, password: seq<byte>, m: seq<byte>) {
    |m| >= HEAD && ReadUser(c, m) == user && m[17..HEAD] == md5(m[1..9] + password + m[9..17])
  }

  lemma FramedReads(c: Cipher, md5: Hash, random: Eight, time: Eight, user: seq<byte>, password: seq<byte>)
    ensures var f := Frame(c, md5, random, time, user, password);
      && FrameRight(c, md5, random, time, user, password, f)
      && (Bijective(c) ==> GivesBack(c, md5, user, password, f))
  {
    FrameBytes(c, md5, random, time, user, password);
    if Bijective(c) { FrameRoundTrip(c, md5, random, time, user, password); }
  }

  // ----- the text handed to the shell

  /** What `%s` prints from a buffer: the characters before the first terminator,
      if it has one. */
  datatype Text = Terminated(text: string) | Unterminated

  function CString(s: string): Text {
    if s == "" then Unterminated
    else if s[0] == '\0' then Terminated("")
    else match CString(s[1..])
      case Terminated(t) => Terminated([s[0]] + t)
      case Unterminated => Unterminated
  }

  /** The dump buffer after the loop: the hex text and its terminator over what
      the buffer held, and untouched when there is nothing to dump. */
  function StrOut(residue: string, b: seq<byte>): (s: string)
    requires 2 * |b| + 1 <= |residue|
    ensures |s| == |residue|
  {
    if b == [] then residue else Hex(b) + "\0" + residue[2 * |b| + 1..]
  }

  lemma {:induction false} CStringOf(t: string, rest: string)
    requires forall k :: 0 <= k < |t| ==> t[k] != '\0'
    ensures CString(t + "\0" + rest) == Terminated(t)
  {
    var s := t + "\0" + rest;
    if t == "" {
      assert s[0] == '\0';
    } else {
      assert s[0] == t[0] && s[1..] == t[1..] + "\0" + rest;
      CStringOf(t[1..], rest);
    }
  }

  lemma {:induction false} HexHasNoTerminator(b: seq<byte>)
    ensures forall k :: 0 <= k < |Hex(b)| ==> Hex(b)[k] != '\0'
  {
    if b != [] { HexHasNoTerminator(b[..|b| - 1]); }
  }

  /** The text is the hex text exactly when there is something to dump or the
      uninitialised buffer happens to start with a terminator. */
  lemma DumpExactly(residue: string, b: seq<byte>)
    requires 2 * |b| + 1 <= |residue|
    ensures CString(StrOut(residue, b)) == Terminated(Hex(b)) <==> b != [] || residue[0] == '\0'
  {
    if b != [] {
      HexHasNoTerminator(b);
      CStringOf(Hex(b), residue[2 * |b| + 1..]);
    }
  }

  /** So the dump is right whatever the buffer held exactly in modes 2 and 3; any
      other mode prints what happens to be on the stack. */
  lemma DumpNeedsMode(c: Cipher, md5: Hash, random: Eight, time: Eight, user: seq<byte>, password: seq<byte>,
                      serial: seq<byte>, mode: int)
    requires 2 * |Message(c, md5, random, time, user, password, serial, mode)| + 1 <= BUFFER
    ensures var b := Message(c, md5, random, time, user, password, serial, mode);
            (forall residue: string | |residue| == BUFFER :: CString(StrOut(residue, b)) == Terminated(Hex(b)))
            <==> mode == 2 || mode == 3
  {
    var b := Message(c, md5, random, time, user, password, serial, mode);
    FrameParts(c, md5, random, time, user, password);
    assert b == [] <==> mode != 2 && mode != 3;
    forall residue: string | |residue| == BUFFER
      ensures CString(StrOut(residue, b)) == Terminated(Hex(b)) <==> b != [] || residue[0] == '\0'
    {
      DumpExactly(residue, b);
    }
    if b == [] {
      var junk: string := seq(BUFFER, _ => 'A');
      assert |junk| == BUFFER && CString(StrOut(junk, b)) != Terminated(Hex(b));
    }
  }

  /** `create_send_message`: dump is the text handed to the shell, strOut the dump
      buffer with whatever it held. The bounds are those of the buffers: 500
      bytes for the dump's text, 256 for the hash. */
  method CreateSendMessage(c: Cipher, md5: Hash, random: Eight, timeNow: Eight, username: seq<byte>,
                           password: seq<byte>, serial: seq<byte>, mode: int, str: array<byte>, strOut: array<char>)
    returns (len: nat, dump: Text)
    requires str.Length >= BUFFER && strOut.Length == BUFFER
    requires Framed(username, mode) ==>
               2 * (HEAD + |Pad(username)|) + 1 <= BUFFER && 16 + |password| <= HASH_BUFFER
    modifies str, strOut
    ensures len <= str.Length && 2 * len + 1 <= BUFFER
    ensures str[..len] == Message(c, md5, random, timeNow, username, password, serial, mode)
    ensures mode == 2 && username == [] ==> len == 35 && SerialRight(serial, str[..len])
    ensures Framed(username, mode) ==> FrameRight(c, md5, random, timeNow, username, password, str[..len])
    ensures Framed(username, mode) && Bijective(c) ==> GivesBack(c, md5, username, password, str[..len])
    ensures mode != 2 && mode != 3 ==> len == 0
    ensures strOut[..] == StrOut(old(strOut[..]), str[..len]) && dump == CString(strOut[..])
  {
    var sn := new byte[24];
    var encryData := new byte[BUFFER];
    len := 0;
    Memset(str, 0, 0, 256);
    Memset(sn, 0, 0, 24);
    if mode == 2 {
      if |username| != 0 {
        len := CreateEncryptMessage(c, md5, random, timeNow, username, password, encryData);
        Memcpy(str, 0, encryData[..len]);
      } else {
        if |serial| > 24 {
          Memcpy(sn, 0, serial[..24]);
        } else {
          Memcpy(sn, 0, serial);
        }
        assert sn[..] == Serial24(serial);
        Memcpy(str, 0, sn[..]);
        Memcpy(str, 24, ADMIN + [0]);
        assert str[..35] == str[..24] + str[24..36][..11];
        len := 35;
      }
    } else if mode == 3 {
      len := CreateEncryptMessage(c, md5, random, timeNow, username, password, encryData);
      Memcpy(str, 0, encryData[..len]);
    }
    SerialBytes(serial);
    FramedReads(c, md5, random, timeNow, username, password);
    dump := OutPutFileStr(str, len, strOut);
  }

  /** Two digits and a terminator, at this place. */
  function Printed(s: string, x: byte, at: nat): string
    requires at + 2 < |s|
  {
    s[..at] + [HexDigit(x / 16), HexDigit(x % 16), '\0'] + s[at + 3..]
  }

  lemma StrOutStep(residue: string, b: seq<byte>, x: byte)
    requires 2 * |b| + 3 <= |residue|
    ensures var s := StrOut(residue, b);
            StrOut(residue, b + [x]) == Printed(s, x, 2 * |b|)
  {
    var s := StrOut(residue, b);
    assert (b + [x])[..|b|] == b;
    assert s[..2 * |b|] == Hex(b);
    assert s[2 * |b| + 3..] == residue[2 * |b| + 3..];
  }

  /** The buffer is not initialised; each sprintf writes two digits and a terminator. */
  method OutPutFileStr(str: array<byte>, len: nat, strOut: array<char>) returns (out: Text)
    requires len <= str.Length && 2 * len + 1 <= strOut.Length
    modifies strOut
    ensures strOut[..] == StrOut(old(strOut[..]), str[..len]) && out == CString(strOut[..])
  {
    ghost var residue := strOut[..];
    var i := 0;
    while i < len
      invariant 0 <= i <= len && strOut[..] == StrOut(residue, str[..i])
    {
      StrOutStep(residue, str[..i], str[i]);
      SprintfByte(str[i], strOut, 2 * i);
      assert str[..i + 1] == str[..i] + [str[i]];
      i := i + 1;
    }
    out := CString(strOut[..]);
  }

  /** sprintf(strOut + at, "%02x", b). */
  method SprintfByte(b: byte, strOut: array<char>, at: nat)
    requires at + 2 < strOut.Length
    modifies strOut
    ensures strOut[..] == Printed(old(strOut[..]), b, at)
  {
    strOut[at], strOut[at + 1], strOut[at + 2] := HexDigit(b / 16), HexDigit(b % 16), '\0';
  }
}
