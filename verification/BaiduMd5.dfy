/** drivers/baidu_netdisk/util.go: the disguise that Baidu puts over MD5 sums, and its removal. */
module BaiduMd5 {
  import opened Options

  // ---------- Digits ----------

  predicate IsHex(c: char) {
    '0' <= c <= '9' || 'a' <= c <= 'f' || 'A' <= c <= 'F'
  }

  predicate IsLowerHex(c: char) {
    '0' <= c <= '9' || 'a' <= c <= 'f'
  }

  /** strconv.ParseInt of one character in base 16: zero for anything that is not a digit. */
  function Digit(c: char): (n: nat)
    ensures n < 16
  {
    if '0' <= c <= '9' then c as int - '0' as int
    else if 'a' <= c <= 'f' then c as int - 'a' as int + 10
    else if 'A' <= c <= 'F' then c as int - 'A' as int + 10
    else 0
  }

  function HexChar(n: nat): char
    requires n < 16
  {
    if n < 10 then (n + '0' as int) as char else (n - 10 + 'a' as int) as char
  }

  function FormatNat(n: nat): string {
    if n < 16 then [HexChar(n)] else FormatNat(n / 16) + [HexChar(n % 16)]
  }

  /** strconv.FormatInt in base 16. */
  function FormatInt(n: int): string {
    if n < 0 then "-" + FormatNat(-n) else FormatNat(n)
  }

  function Power2(k: nat): nat { if k == 0 then 1 else 2 * Power2(k - 1) }

  /** Exclusive or of `k`-bit numbers, bit by bit. */
  function XorBits(a: nat, b: nat, k: nat): (x: nat)
    requires a < Power2(k) && b < Power2(k)
    ensures x < Power2(k)
  {
    if k == 0 then 0 else (a + b) % 2 + 2 * XorBits(a / 2, b / 2, k - 1)
  }

  lemma {:induction false} XorBitsTwice(a: nat, b: nat, k: nat)
    requires a < Power2(k) && b < Power2(k)
    ensures XorBits(XorBits(a, b, k), b, k) == a
  {
    if k > 0 {
      var x := XorBits(a, b, k);
      XorBitsTwice(a / 2, b / 2, k - 1);
      LastBit(a, b, x, XorBits(a / 2, b / 2, k - 1));
    }
  }

  lemma LastBit(a: nat, b: nat, x: nat, y: nat)
    requires x == (a + b) % 2 + 2 * y
    ensures x / 2 == y && (x + b) % 2 + 2 * (a / 2) == a
  {
    var p, q := a / 2, b / 2;
    var u, v := a - 2 * p, b - 2 * q;
    assert u == a % 2 && v == b % 2 && (a + b) % 2 == (u + v) % 2;
    assert (x + b) % 2 == ((u + v) % 2 + v) % 2;
  }

  function XorNibble(a: nat, b: nat): (x: nat)
    requires a < 16 && b < 16
    ensures x < 16
  {
    assert Power2(4) == 16;
    XorBits(a, b, 4)
  }

  lemma XorTwice(a: nat, b: nat)
    requires a < 16 && b < 16
    ensures XorNibble(XorNibble(a, b), b) == a
  {
    assert Power2(4) == 16;
    XorBitsTwice(a, b, 4);
  }

  /** Exclusive or of a number in two's complement with a four-bit number touches the low four bits only. */
  function Xor(n: int, b: nat): int
    requires b < 16
  {
    n - n % 16 + XorNibble(n % 16, b)
  }

  lemma XorSmall(n: nat, b: nat)
    requires n < 16 && b < 16
    ensures Xor(n, b) == XorNibble(n, b) && FormatInt(Xor(n, b)) == [HexChar(XorNibble(n, b))]
  {
    hide XorNibble, HexChar;
    assert n % 16 == n && Xor(n, b) == XorNibble(n, b);
  }

  lemma DigitOfHexChar(n: nat)
    requires n < 16
    ensures Digit(HexChar(n)) == n && IsLowerHex(HexChar(n))
  {
  }

  lemma HexCharOfDigit(c: char)
    requires IsLowerHex(c)
    ensures HexChar(Digit(c)) == c
  {
  }

  /** unicode.ToLower on the characters below 256. */
  function ToLower(c: char): char {
    if 'A' <= c <= 'Z' || (0xC0 <= c as int <= 0xDE && c as int != 0xD7) then (c as int + 32) as char else c
  }

  /** The blocks of eight change places in pairs; anything after 32 characters is dropped. */
  function Swap(s: string): (t: string)
    requires |s| >= 32
    ensures |t| == 32
  {
    s[8..16] + s[..8] + s[24..32] + s[16..24]
  }

  lemma SwapTwice(s: string)
    requires |s| == 32
    ensures Swap(Swap(s)) == s
  {
    var t := Swap(s);
    assert t[8..16] == s[..8] && t[..8] == s[8..16] && t[24..32] == s[16..24] && t[16..24] == s[24..32];
    assert s == s[..8] + s[8..16] + s[16..24] + s[24..32];
  }

  // ---------- Encryption ----------

  /** What stands at position `i` for the character `c`. Position 9 gets a letter from 'g' on. */
  function EncryptChar(c: char, i: nat): char {
    var n := XorNibble(Digit(c), i % 16);
    if i == 9 then (n + 'g' as int) as char else HexChar(n)
  }

  function Encrypted(h: string): string
    requires |h| >= 32
  {
    var reversed := Swap(h);
    seq(32, i requires 0 <= i < 32 => EncryptChar(reversed[i], i))
  }

  /** EncryptMd5; slicing a string of fewer than 32 characters panics. */
  method EncryptMd5(h: string) returns (e: Option<string>)
    ensures e.None? <==> |h| < 32
    ensures e.Some? ==> e.value == Encrypted(h)
  {
    if |h| < 32 {
      return None;
    }
    var reversed := h[8..16] + h[..8] + h[24..32] + h[16..24];
    var out := "";
    for i := 0 to |reversed|
      invariant out == Encrypted(h)[..i]
    {
      var n := Digit(reversed[i]);
      n := XorNibble(n, i % 16);
      if i == 9 {
        out := out + [(n + 'g' as int) as char];
      } else {
        out := out + FormatInt(n);
      }
    }
    return Some(out);
  }

  // ---------- Decryption ----------

  /** hex.DecodeString succeeds. */
  ghost predicate IsPlainHex(e: string) {
    |e| % 2 == 0 && forall i :: 0 <= i < |e| ==> IsHex(e[i])
  }

  /** What is written for position `i`; at position 9 this can be any number of characters. */
  function DecryptChar(e: string, i: nat): string
    requires i < |e|
  {
    var n := if i == 9 then ToLower(e[i]) as int - 'g' as int else Digit(e[i]);
    FormatInt(Xor(n, i % 16))
  }

  function Written(e: string, k: nat): string
    requires k <= |e|
  {
    if k == 0 then "" else Written(e, k - 1) + DecryptChar(e, k - 1)
  }

  ghost function Decrypted(e: string): Option<string> {
    if IsPlainHex(e) then Some(e)
    else if |Written(e, |e|)| < 32 then None
    else Some(Swap(Written(e, |e|)))
  }

  method DecryptMd5(e: string) returns (h: Option<string>)
    ensures h == Decrypted(e)
  {
    var plain := |e| % 2 == 0;
    for i := 0 to |e|
      invariant plain <==> |e| % 2 == 0 && forall j :: 0 <= j < i ==> IsHex(e[j])
    {
      plain := plain && IsHex(e[i]);
    }
    if plain {
      return Some(e);
    }
    var out := "";
    for i := 0 to |e|
      invariant out == Written(e, i)
    {
      var n: int;
      if i == 9 {
        n := ToLower(e[i]) as int - 'g' as int;
      } else {
        n := Digit(e[i]);
      }
      out := out + FormatInt(Xor(n, i % 16));
    }
    if |out| < 32 {
      return None;
    }
    return Some(out[8..16] + out[..8] + out[24..32] + out[16..24]);
  }

  // ---------- Round trips ----------

  ghost predicate IsMd5(h: string) {
    |h| == 32 && forall i :: 0 <= i < 32 ==> IsLowerHex(h[i])
  }

  /** What a disguised sum looks like. */
  ghost predicate IsDisguised(e: string) {
    |e| == 32 && forall i :: 0 <= i < 32 ==> if i == 9 then 'g' <= e[i] <= 'v' else IsLowerHex(e[i])
  }

  /** The value that decryption reads at position `i`. */
  function ReadChar(e: char, i: nat): int {
    if i == 9 then ToLower(e) as int - 'g' as int else Digit(e)
  }

  ghost predicate IsDisguisedChar(e: char, i: nat) {
    if i == 9 then 'g' <= e <= 'v' else IsLowerHex(e)
  }

  lemma CharRoundTrip(c: char, i: nat)
    requires IsLowerHex(c) && i < 32
    ensures IsDisguisedChar(EncryptChar(c, i), i) && FormatInt(Xor(ReadChar(EncryptChar(c, i), i), i % 16)) == [c]
  {
    var n := XorNibble(Digit(c), i % 16);
    DigitOfHexChar(n);
    hide XorNibble, HexChar, FormatInt, Digit, Xor;
    assert ReadChar(EncryptChar(c, i), i) == n;
    XorTwice(Digit(c), i % 16);
    XorSmall(n, i % 16);
    HexCharOfDigit(c);
  }

  lemma DisguisedCharRoundTrip(e: char, i: nat)
    requires i < 32 && IsDisguisedChar(e, i)
    ensures var c := FormatInt(Xor(ReadChar(e, i), i % 16));
      |c| == 1 && IsLowerHex(c[0]) && EncryptChar(c[0], i) == e
  {
    var n := ReadChar(e, i);
    assert 0 <= n < 16;
    assert i == 9 ==> n + 'g' as int == e as int;
    if i != 9 {
      HexCharOfDigit(e);
    }
    hide XorNibble, HexChar, FormatInt, Digit, Xor, ReadChar, IsLowerHex;
    XorSmall(n, i % 16);
    XorTwice(n, i % 16);
    DigitOfHexChar(XorNibble(n, i % 16));
  }

  /** Writing position by position, when each position gives one character. */
  lemma {:induction false} WrittenIs(e: string, s: string, k: nat)
    requires |e| == |s| == 32 && k <= 32 && forall i :: 0 <= i < 32 ==> DecryptChar(e, i) == [s[i]]
    ensures Written(e, k) == s[..k]
  {
    hide DecryptChar;
    if k > 0 {
      WrittenIs(e, s, k - 1);
      assert DecryptChar(e, k - 1) == [s[k - 1]];
      assert s[..k] == s[..k - 1] + [s[k - 1]];
    }
  }

  /** A disguised sum is never taken for a plain one. */
  lemma DisguisedIsNotPlain(e: string)
    requires IsDisguised(e)
    ensures !IsPlainHex(e)
  {
    assert !IsHex(e[9]);
  }

  /** What decryption makes of a text whose every position writes one character. */
  lemma DecryptedIs(e: string, s: string)
    requires IsDisguised(e) && |s| == 32 && forall i :: 0 <= i < 32 ==> DecryptChar(e, i) == [s[i]]
    ensures Decrypted(e) == Some(Swap(s))
  {
    hide DecryptChar, Swap;
    DisguisedIsNotPlain(e);
    WrittenIs(e, s, 32);
    hide IsDisguised, IsPlainHex, Written;
    assert s[..32] == s;
  }

  lemma SwapKeepsMd5(s: string)
    requires IsMd5(s)
    ensures IsMd5(Swap(s))
  {
  }

  lemma DisguisedAt(e: string)
    requires |e| == 32
    ensures IsDisguised(e) <==> forall i :: 0 <= i < 32 ==> IsDisguisedChar(e[i], i)
  {
  }

  lemma DecryptCharIs(e: string, i: nat)
    requires i < |e|
    ensures DecryptChar(e, i) == FormatInt(Xor(ReadChar(e[i], i), i % 16))
  {
  }

  /** Every sum in lower case gets a disguise, and loses it again. */
  lemma DecryptUndoesEncrypt(h: string)
    requires IsMd5(h)
    ensures IsDisguised(Encrypted(h)) && Decrypted(Encrypted(h)) == Some(h)
  {
    SwapKeepsMd5(h);
    SwapTwice(h);
    var s, e := Swap(h), Encrypted(h);
    hide Swap, DecryptChar, IsDisguisedChar, FormatInt, Xor, ReadChar, IsLowerHex, Decrypted, IsDisguised, EncryptChar;
    forall i | 0 <= i < 32 ensures DecryptChar(e, i) == [s[i]] && IsDisguisedChar(e[i], i) {
      CharRoundTrip(s[i], i);
      DecryptCharIs(e, i);
    }
    DisguisedAt(e);
    DecryptedIs(e, s);
  }

  /** Every disguise comes from a sum. */
  lemma EncryptUndoesDecrypt(e: string)
    requires IsDisguised(e)
    ensures Decrypted(e).Some? && IsMd5(Decrypted(e).value) && Encrypted(Decrypted(e).value) == e
  {
    DisguisedAt(e);
    hide Swap, DecryptChar, IsDisguisedChar, FormatInt, Xor, ReadChar, IsLowerHex, Decrypted, IsDisguised, EncryptChar;
    forall i | 0 <= i < 32
      ensures |DecryptChar(e, i)| == 1 && IsLowerHex(DecryptChar(e, i)[0]) &&
        EncryptChar(DecryptChar(e, i)[0], i) == e[i]
    {
      DisguisedCharRoundTrip(e[i], i);
      DecryptCharIs(e, i);
    }
    var s := seq(32, i requires 0 <= i < 32 => DecryptChar(e, i)[0]);
    assert forall i :: 0 <= i < 32 ==> DecryptChar(e, i) == [s[i]];
    DecryptedIs(e, s);
    SwapTwice(s);
    SwapKeepsMd5(s);
    assert Encrypted(Swap(s)) == e;
  }

  // ---------- Character by character ----------

  /** Exclusive or of four-bit numbers: each bit of the result is set if and only if just one of the two is. */
  ghost predicate IsXor(x: nat, a: nat, b: nat) {
    && x < 16 && (x % 2 == 1 <==> a % 2 != b % 2) && (x / 2 % 2 == 1 <==> a / 2 % 2 != b / 2 % 2)
    && (x / 4 % 2 == 1 <==> a / 4 % 2 != b / 4 % 2) && (x / 8 % 2 == 1 <==> a / 8 % 2 != b / 8 % 2)
  }

  lemma {:induction false} XorBitsStep(a: nat, b: nat, k: nat)
    requires k > 0 && a < Power2(k) && b < Power2(k)
    ensures var x := XorBits(a, b, k);
      x / 2 == XorBits(a / 2, b / 2, k - 1) && (x % 2 == 1 <==> a % 2 != b % 2)
  {
    Parity(a, b, XorBits(a / 2, b / 2, k - 1));
    hide Power2;
  }

  lemma Parity(a: nat, b: nat, y: nat)
    ensures var x := (a + b) % 2 + 2 * y;
      x / 2 == y && (x % 2 == 1 <==> a % 2 != b % 2)
  {
    var p, q := a / 2, b / 2;
    assert a == 2 * p + a % 2 && b == 2 * q + b % 2;
  }

  lemma NibbleIsXor(a: nat, b: nat)
    requires a < 16 && b < 16
    ensures IsXor(XorNibble(a, b), a, b)
  {
    assert Power2(4) == 16 && Power2(3) == 8 && Power2(2) == 4 && Power2(1) == 2;
    XorBitsStep(a, b, 4);
    XorBitsStep(a / 2, b / 2, 3);
    XorBitsStep(a / 4, b / 4, 2);
    XorBitsStep(a / 8, b / 8, 1);
    Halves(a);
    Halves(b);
    Halves(XorNibble(a, b));
  }

  lemma Halves(n: nat)
    ensures n / 2 / 2 == n / 4 && n / 4 / 2 == n / 8
  {
  }

  const HEX_DIGITS := "0123456789abcdef"

  /** The character that stands for the digit at position `i`: position 9 counts from 'g' on instead of '0'. */
  ghost predicate StandsFor(e: char, x: nat, i: nat) {
    x < 16 && if i == 9 then e as int == 'g' as int + x else e == HEX_DIGITS[x]
  }

  function Opposite(i: nat): nat { if i % 16 < 8 then i + 8 else i - 8 }

  /** The disguise, character by character: at position `i` stands the digit from the other eight characters of the same
      half of the sum, mixed with `i % 16`. */
  lemma EncryptedAt(h: string, i: nat)
    requires IsMd5(h) && i < 32
    ensures |Encrypted(h)| == 32
    ensures exists x: nat, a: nat ::
      && a < 16 && h[Opposite(i)] == HEX_DIGITS[a]
      && IsXor(x, a, i % 16) && StandsFor(Encrypted(h)[i], x, i)
  {
    var c := h[Opposite(i)];
    assert Swap(h)[i] == c;
    var x := XorNibble(Digit(c), i % 16);
    NibbleIsXor(Digit(c), i % 16);
    HexTable(x);
    HexTable(Digit(c));
    HexCharOfDigit(c);
    hide XorNibble, IsXor, Digit, Swap, HexChar;
    assert Encrypted(h)[i] == EncryptChar(c, i);
  }

  lemma HexTable(n: nat)
    requires n < 16
    ensures HexChar(n) == HEX_DIGITS[n]
  {
  }
}
