/** drivers/189/help.go: b64tohex turns base64 text into hexadecimal text without going through bytes. */
module Base64Hex {
  import opened Options

  type Byte = b: int | 0 <= b < 256
  type Sextet = v: int | 0 <= v < 64

  // ---------- The encodings of RFC 4648 ----------

  /** Table 1 of RFC 4648. */
  function Char64(v: Sextet): char {
    if v < 26 then ('A' as int + v) as char
    else if v < 52 then ('a' as int + v - 26) as char
    else if v < 62 then ('0' as int + v - 52) as char
    else if v == 62 then '+' else '/'
  }

  /** The position of a character in that table, or -1. */
  function Index64(m: char): (v: int)
    ensures -1 <= v < 64
    ensures v >= 0 ==> Char64(v) == m
  {
    if 'A' <= m <= 'Z' then m as int - 'A' as int
    else if 'a' <= m <= 'z' then m as int - 'a' as int + 26
    else if '0' <= m <= '9' then m as int - '0' as int + 52
    else if m == '+' then 62
    else if m == '/' then 63
    else -1
  }

  lemma IndexOfChar(v: Sextet)
    ensures Index64(Char64(v)) == v && Char64(v) != '='
  {
  }

  /** Section 4 of RFC 4648: three bytes make four characters; padding fills the last group. */
  function Base64(bs: seq<Byte>): string {
    if bs == [] then ""
    else if |bs| == 1 then [Char64(bs[0] / 4), Char64(bs[0] % 4 * 16), '=', '=']
    else if |bs| == 2 then [Char64(bs[0] / 4), Char64(bs[0] % 4 * 16 + bs[1] / 16), Char64(bs[1] % 16 * 4), '=']
    else Quad(bs[0] / 4, bs[0] % 4 * 16 + bs[1] / 16, bs[1] % 16 * 4 + bs[2] / 64, bs[2] % 64) + Base64(bs[3..])
  }

  function Quad(v0: Sextet, v1: Sextet, v2: Sextet, v3: Sextet): string {
    [Char64(v0), Char64(v1), Char64(v2), Char64(v3)]
  }

  /** Section 8 of RFC 4648, in lower case. */
  function Hex(bs: seq<Byte>): string {
    if bs == [] then "" else [Int2Char(bs[0] / 16), Int2Char(bs[0] % 16)] + Hex(bs[1..])
  }

  /** The character of a digit, for digits up to 35. */
  function Int2Char(a: nat): char
    requires a < 36
  {
    if a < 10 then ('0' as int + a) as char else ('a' as int + a - 10) as char
  }

  // ---------- b64tohex ----------

  /** The variables of the loop: `e` counts the sextets of the current group, `c` holds the bits left over. */
  datatype State = State(e: nat, c: nat, d: string)

  ghost predicate Valid(s: State) {
    s.e < 4 && (s.e == 1 || s.e == 3 ==> s.c < 4) && (s.e == 2 ==> s.c < 16)
  }

  /** One sextet. Shifting left by two and combining with a value below four is `4 * c + value`. */
  function Step(s: State, v: Sextet): (t: State)
    requires Valid(s)
    ensures Valid(t)
  {
    if s.e == 0 then State(1, v % 4, s.d + [Int2Char(v / 4)])
    else if s.e == 1 then State(2, v % 16, s.d + [Int2Char(4 * s.c + v / 16)])
    else if s.e == 2 then State(3, v % 4, s.d + [Int2Char(s.c)] + [Int2Char(v / 4)])
    else State(0, s.c, s.d + [Int2Char(4 * s.c + v / 16)] + [Int2Char(v % 16)])
  }

  /** The number that hexadecimal digits stand for. */
  function HexNumber(d: string): int {
    if d == "" then 0 else 16 * HexNumber(d[..|d| - 1]) + DigitValue(d[|d| - 1])
  }

  function DigitValue(m: char): int {
    if '0' <= m <= '9' then m as int - '0' as int else m as int - 'a' as int + 10
  }

  lemma HexNumberSnoc(d: string, a: nat)
    requires a < 16
    ensures HexNumber(d + [Int2Char(a)]) == 16 * HexNumber(d) + a
  {
    assert (d + [Int2Char(a)])[..|d|] == d;
  }

  /** How many bits the digits of a group are behind its sextets, as a power of two. */
  function Behind(e: nat): int {
    if e == 2 then 16 else if e == 0 then 1 else 4
  }

  /** The number that the sextets so far stand for: the digits, followed by the bits left over. */
  function Reading(s: State): int {
    HexNumber(s.d) * Behind(s.e) + if s.e == 0 then 0 else s.c
  }

  /** One round of the loop shifts the number by six bits and adds the sextet, whatever the position in the group; the
      digits stay behind by the bits left over. */
  lemma StepReads(s: State, v: Sextet)
    requires Valid(s)
    ensures Reading(Step(s, v)) == 64 * Reading(s) + v
    ensures 4 * |Step(s, v).d| + (if Step(s, v).e == 2 then 4 else if Step(s, v).e == 0 then 0 else 2)
      == 4 * |s.d| + (if s.e == 2 then 4 else if s.e == 0 then 0 else 2) + 6
  {
    if s.e == 0 {
      HexNumberSnoc(s.d, v / 4);
    } else if s.e == 1 {
      HexNumberSnoc(s.d, 4 * s.c + v / 16);
    } else if s.e == 2 {
      HexNumberSnoc(s.d, s.c);
      HexNumberSnoc(s.d + [Int2Char(s.c)], v / 4);
    } else {
      HexNumberSnoc(s.d, 4 * s.c + v / 16);
      HexNumberSnoc(s.d + [Int2Char(4 * s.c + v / 16)], v % 16);
    }
  }

  function Run(s: State, vs: seq<Sextet>): (t: State)
    requires Valid(s)
    ensures Valid(t)
    decreases |vs|
  {
    if vs == [] then s else Run(Step(s, vs[0]), vs[1..])
  }

  /** Base64 characters and padding signs. */
  ghost predicate IsText(a: string) {
    forall i :: 0 <= i < |a| ==> a[i] == '=' || Index64(a[i]) >= 0
  }

  function Sextets(a: string): seq<Sextet>
    requires IsText(a)
  {
    if a == "" then []
    else if a[0] == '=' then Sextets(a[1..])
    else [Index64(a[0])] + Sextets(a[1..])
  }

  const START := State(0, 0, "")

  function Finish(s: State): string
    requires Valid(s)
  {
    if s.e == 1 then s.d + [Int2Char(s.c * 4)] else s.d
  }

  /** b64tohex. Any other character leads to the digit -1, whatever the state, and so to a panic. */
  method B64ToHex(a: string) returns (d: Option<string>)
    ensures d.Some? <==> IsText(a)
    ensures d.Some? ==> d.value == Finish(Run(START, Sextets(a)))
  {
    var s := START;
    assert a[0..] == a;
    for i := 0 to |a|
      invariant Valid(s) && forall j :: 0 <= j < i ==> a[j] == '=' || Index64(a[j]) >= 0
      invariant IsText(a) ==> IsText(a[i..]) && Run(s, Sextets(a[i..])) == Run(START, Sextets(a))
    {
      var m := a[i];
      assert a[i..][1..] == a[i + 1..];
      if m != '=' {
        var v := Index64(m);
        if v < 0 {
          return None;
        }
        s := Advance(s, v);
      }
    }
    return Some(Finish(s));
  }

  /** The branches of the loop body: they take in the sextet and keep the number read. */
  method Advance(s: State, v: Sextet) returns (t: State)
    requires Valid(s)
    ensures t == Step(s, v) && Reading(t) == 64 * Reading(s) + v
  {
    StepReads(s, v);
    var e, c, d := s.e, s.c, s.d;
    if e == 0 {
      e := 1;
      d := d + [Int2Char(v / 4)];
      c := v % 4;
    } else if e == 1 {
      e := 2;
      d := d + [Int2Char(4 * c + v / 16)];
      c := v % 16;
    } else if e == 2 {
      e := 3;
      d := d + [Int2Char(c)];
      d := d + [Int2Char(v / 4)];
      c := v % 4;
    } else {
      e := 0;
      d := d + [Int2Char(4 * c + v / 16)];
      d := d + [Int2Char(v % 16)];
    }
    return State(e, c, d);
  }

  // ---------- The result ----------

  function Cons4(v0: Sextet, v1: Sextet, v2: Sextet, v3: Sextet, vs: seq<Sextet>): seq<Sextet> {
    [v0] + ([v1] + ([v2] + ([v3] + vs)))
  }

  /** The sextets of the encoding, without the padding. */
  function Groups(bs: seq<Byte>): seq<Sextet> {
    if bs == [] then []
    else if |bs| == 1 then [bs[0] / 4, bs[0] % 4 * 16]
    else if |bs| == 2 then [bs[0] / 4, bs[0] % 4 * 16 + bs[1] / 16, bs[1] % 16 * 4]
    else Cons4(bs[0] / 4, bs[0] % 4 * 16 + bs[1] / 16, bs[1] % 16 * 4 + bs[2] / 64, bs[2] % 64, Groups(bs[3..]))
  }

  lemma SextetsCons(v: Sextet, a: string)
    requires IsText(a)
    ensures IsText([Char64(v)] + a) && Sextets([Char64(v)] + a) == [v] + Sextets(a)
  {
    IndexOfChar(v);
    assert ([Char64(v)] + a)[1..] == a;
  }

  lemma PaddingHasNoSextets()
    ensures IsText("") && IsText("=") && IsText("==") && Sextets("==") == [] && Sextets("=") == [] && Sextets("") == []
  {
    assert "=="[1..] == "=" && "="[1..] == "";
  }

  lemma SextetsOfQuad(v0: Sextet, v1: Sextet, v2: Sextet, v3: Sextet, rest: string)
    requires IsText(rest)
    ensures IsText(Quad(v0, v1, v2, v3) + rest) &&
      Sextets(Quad(v0, v1, v2, v3) + rest) == Cons4(v0, v1, v2, v3, Sextets(rest))
  {
    assert Quad(v0, v1, v2, v3) + rest == [Char64(v0)] + ([Char64(v1)] + ([Char64(v2)] + ([Char64(v3)] + rest)));
    hide Sextets, IsText, Char64, Quad;
    SextetsCons(v3, rest);
    SextetsCons(v2, [Char64(v3)] + rest);
    SextetsCons(v1, [Char64(v2)] + ([Char64(v3)] + rest));
    SextetsCons(v0, [Char64(v1)] + ([Char64(v2)] + ([Char64(v3)] + rest)));
  }

  lemma SextetsOfPadded(v0: Sextet, v1: Sextet, v2: Sextet)
    ensures IsText([Char64(v0), Char64(v1), '=', '=']) && Sextets([Char64(v0), Char64(v1), '=', '=']) == [v0, v1]
    ensures IsText([Char64(v0), Char64(v1), Char64(v2), '=']) &&
      Sextets([Char64(v0), Char64(v1), Char64(v2), '=']) == [v0, v1, v2]
  {
    PaddingHasNoSextets();
    assert [Char64(v0), Char64(v1), '=', '='] == [Char64(v0)] + ([Char64(v1)] + "==");
    assert [Char64(v0), Char64(v1), Char64(v2), '='] == [Char64(v0)] + ([Char64(v1)] + ([Char64(v2)] + "="));
    hide Sextets, IsText, Char64;
    SextetsCons(v1, "==");
    SextetsCons(v0, [Char64(v1)] + "==");
    SextetsCons(v2, "=");
    SextetsCons(v1, [Char64(v2)] + "=");
    SextetsCons(v0, [Char64(v1)] + ([Char64(v2)] + "="));
  }

  lemma {:induction false} SextetsOfBase64(bs: seq<Byte>)
    ensures IsText(Base64(bs)) && Sextets(Base64(bs)) == Groups(bs)
  {
    PaddingHasNoSextets();
    hide Sextets, IsText, Char64, Quad, Cons4;
    if |bs| == 1 {
      SextetsOfPadded(bs[0] / 4, bs[0] % 4 * 16, 0);
    } else if |bs| == 2 {
      SextetsOfPadded(bs[0] / 4, bs[0] % 4 * 16 + bs[1] / 16, bs[1] % 16 * 4);
    } else if |bs| > 2 {
      SextetsOfBase64(bs[3..]);
      SextetsOfQuad(bs[0] / 4, bs[0] % 4 * 16 + bs[1] / 16, bs[1] % 16 * 4 + bs[2] / 64, bs[2] % 64, Base64(bs[3..]));
    }
  }

  lemma RunCons(s: State, v: Sextet, vs: seq<Sextet>)
    requires Valid(s)
    ensures Run(s, [v] + vs) == Run(Step(s, v), vs)
  {
    assert ([v] + vs)[1..] == vs;
  }

  lemma Digits(b0: Byte, b1: Byte, b2: Byte)
    ensures b0 / 4 / 4 == b0 / 16 && 4 * (b0 / 4 % 4) + (b0 % 4 * 16 + b1 / 16) / 16 == b0 % 16
    ensures (b0 % 4 * 16 + b1 / 16) % 16 == b1 / 16 && (b1 % 16 * 4 + b2 / 64) / 4 == b1 % 16
    ensures 4 * ((b1 % 16 * 4 + b2 / 64) % 4) + b2 % 64 / 16 == b2 / 16 && b2 % 64 % 16 == b2 % 16
  {
  }

  function Digits2(b: Byte): string { [Int2Char(b / 16), Int2Char(b % 16)] }

  lemma HexCons(b: Byte, bs: seq<Byte>)
    ensures Hex([b] + bs) == Digits2(b) + Hex(bs) && Hex([]) == []
  {
    assert ([b] + bs)[1..] == bs;
  }

  /** Four sextets of a group add the six digits of its three bytes. */
  lemma StepGroup(s: State, b0: Byte, b1: Byte, b2: Byte) returns (t: State)
    requires s.e == 0
    ensures t == Step(Step(Step(Step(s, b0 / 4), b0 % 4 * 16 + b1 / 16), b1 % 16 * 4 + b2 / 64), b2 % 64)
    ensures t.e == 0 && t.d == s.d + (Digits2(b0) + (Digits2(b1) + Digits2(b2)))
  {
    Digits(b0, b1, b2);
    t := Step(Step(Step(Step(s, b0 / 4), b0 % 4 * 16 + b1 / 16), b1 % 16 * 4 + b2 / 64), b2 % 64);
  }

  /** Running over the encoding of any bytes adds their hexadecimal digits, and never ends after a single sextet. */
  lemma {:induction false} RunOfGroups(s: State, bs: seq<Byte>)
    requires s.e == 0
    ensures Run(s, Groups(bs)).d == s.d + Hex(bs) && Run(s, Groups(bs)).e != 1
    decreases |bs|
  {
    hide Run, Step, Hex, Digits2, Cons4;
    if bs == [] {
      RunNothing(s);
    } else if |bs| == 1 {
      RunOne(s, bs[0]);
      assert bs == [bs[0]];
    } else if |bs| == 2 {
      RunTwo(s, bs[0], bs[1]);
      assert bs == [bs[0], bs[1]];
    } else {
      var b0, b1, b2, rest := bs[0], bs[1], bs[2], bs[3..];
      var t := StepGroup(s, b0, b1, b2);
      RunOfGroups(t, rest);
      assert bs == [b0] + ([b1] + ([b2] + rest));
      RunGroup(s, b0 / 4, b0 % 4 * 16 + b1 / 16, b1 % 16 * 4 + b2 / 64, b2 % 64, Groups(rest));
      HexGroup(s.d, b0, b1, b2, rest);
    }
  }

  lemma RunGroup(s: State, v0: Sextet, v1: Sextet, v2: Sextet, v3: Sextet, vs: seq<Sextet>)
    requires Valid(s)
    ensures Run(s, Cons4(v0, v1, v2, v3, vs)) == Run(Step(Step(Step(Step(s, v0), v1), v2), v3), vs)
  {
    hide Run, Step;
    RunCons(s, v0, [v1] + ([v2] + ([v3] + vs)));
    var s1 := Step(s, v0);
    RunCons(s1, v1, [v2] + ([v3] + vs));
    var s2 := Step(s1, v1);
    RunCons(s2, v2, [v3] + vs);
    RunCons(Step(s2, v2), v3, vs);
  }

  lemma HexGroup(d: string, b0: Byte, b1: Byte, b2: Byte, rest: seq<Byte>)
    ensures d + (Digits2(b0) + (Digits2(b1) + Digits2(b2))) + Hex(rest) == d + Hex([b0] + ([b1] + ([b2] + rest)))
  {
    hide Hex, Digits2;
    HexCons(b0, [b1] + ([b2] + rest));
    HexCons(b1, [b2] + rest);
    HexCons(b2, rest);
    Regroup(d, Digits2(b0), Digits2(b1), Digits2(b2), Hex(rest));
  }

  lemma Regroup(d: string, x: string, y: string, z: string, h: string)
    ensures d + (x + (y + z)) + h == d + (x + (y + (z + h)))
  {
    assert y + z + h == y + (z + h);
    assert x + (y + z) + h == x + (y + z + h);
  }

  lemma RunNothing(s: State)
    requires Valid(s)
    ensures Run(s, []) == s && s.d == s.d + Hex([])
  {
    assert s.d + [] == s.d;
  }

  lemma RunOne(s: State, b0: Byte)
    requires s.e == 0
    ensures var t := Run(s, [b0 / 4, b0 % 4 * 16]);
      t.d == s.d + Hex([b0]) && t.e == 2
  {
    var v0, v1 := b0 / 4, b0 % 4 * 16;
    Digits(b0, 0, 0);
    RunCons(s, v0, [v1]);
    RunCons(Step(s, v0), v1, []);
    assert [v0, v1] == [v0] + [v1] && [v1] + [] == [v1];
    HexCons(b0, []);
    assert [b0] + [] == [b0];
  }

  lemma RunTwo(s: State, b0: Byte, b1: Byte)
    requires s.e == 0
    ensures var t := Run(s, [b0 / 4, b0 % 4 * 16 + b1 / 16, b1 % 16 * 4]);
      t.d == s.d + Hex([b0, b1]) && t.e == 3
  {
    var v0, v1, v2 := b0 / 4, b0 % 4 * 16 + b1 / 16, b1 % 16 * 4;
    Digits(b0, b1, 0);
    var t := Step(Step(Step(s, v0), v1), v2);
    assert t.e == 3 && t.d == s.d + (Digits2(b0) + Digits2(b1));
    hide Run, Step, Hex, Digits2;
    RunCons(s, v0, [v1, v2]);
    RunCons(Step(s, v0), v1, [v2]);
    RunCons(Step(Step(s, v0), v1), v2, []);
    RunNothing(t);
    assert [v0, v1, v2] == [v0] + [v1, v2] && [v1, v2] == [v1] + [v2] && [v2] + [] == [v2];
    HexCons(b0, [b1]);
    HexCons(b1, []);
    assert [b1] + [] == [b1] && [b0, b1] == [b0] + [b1];
    assert Digits2(b1) + [] == Digits2(b1);
  }

  /** For every byte sequence, b64tohex of its base64 text is its hexadecimal text, in all padding cases; the
      final branch for a group of a single sextet is not taken. */
  lemma Base64BecomesHex(bs: seq<Byte>)
    ensures IsText(Base64(bs)) && Run(START, Sextets(Base64(bs))).e != 1
    ensures Finish(Run(START, Sextets(Base64(bs)))) == Hex(bs)
  {
    SextetsOfBase64(bs);
    RunOfGroups(START, bs);
    assert "" + Hex(bs) == Hex(bs);
  }

  // ---------- The tables ----------

  const UPPER := "ABCDEFGHIJKLMNOPQRSTUVWXYZ"
  const LOWER := "abcdefghijklmnopqrstuvwxyz"
  const B64MAP := UPPER + LOWER + DIGITS + "+/"
  const DIGITS := "0123456789"
  const BI_RM := DIGITS + LOWER

  /** Consecutive characters from `first` on. */
  ghost predicate CountsFrom(s: string, first: char) {
    forall i :: 0 <= i < |s| ==> s[i] as int == first as int + i
  }

  lemma InOrder()
    ensures |UPPER| == |LOWER| == 26 && CountsFrom(UPPER, 'A') && CountsFrom(LOWER, 'a')
    ensures |DIGITS| == 10 && CountsFrom(DIGITS, '0')
  {
  }

  lemma TablesOf(upper: string, lower: string, digits: string, v: Sextet, a: nat)
    requires |upper| == |lower| == 26 && CountsFrom(upper, 'A') && CountsFrom(lower, 'a')
    requires |digits| == 10 && CountsFrom(digits, '0') && a < 36
    ensures var t := upper + lower + digits + "+/"; |t| == 64 && Char64(v) == t[v]
    ensures var t := digits + lower; |t| == 36 && Int2Char(a) == t[a]
  {
  }

  /** The characters are those of the two tables, in their order. */
  lemma Tables(v: Sextet, a: nat)
    requires a < 36
    ensures |B64MAP| == 64 && Char64(v) == B64MAP[v]
    ensures |BI_RM| == 36 && Int2Char(a) == BI_RM[a]
  {
    InOrder();
    hide CountsFrom, Char64, Int2Char;
    TablesOf(UPPER, LOWER, DIGITS, v, a);
  }

  /** Two of the test vectors of section 10 of RFC 4648, "fo" and "foo", and a text with the last two characters of the
      table. */
  lemma TestVectors()
    ensures Base64([102, 111]) == "Zm8=" && Base64([251, 255]) == "+/8="
    ensures Base64([102, 111, 111]) == "Zm9v"
  {
    var bs: seq<Byte> := [102, 111, 111];
    assert bs[3..] == [];
    Tables(25, 0);
    Tables(38, 0);
    Tables(61, 0);
    Tables(47, 0);
  }
}
