/** Part file names: a decimal index followed by the configured extension, and how a listing is read back.
    Models `getPartName` and the name tests of `Get` and `List` in drivers/chunk/driver.go. */
module PartNames {
  import opened Options

  const MIN_INT64: int := -0x8000_0000_0000_0000
  const MAX_INT64: int := 0x7FFF_FFFF_FFFF_FFFF

  predicate IsDigit(c: char) { '0' <= c <= '9' }

  function Digit(d: nat): (c: char)
    requires d < 10
  {
    '0' + d as char
  }

  /** The decimal numeral of `n`. */
  function Decimal(n: nat): string {
    if n < 10 then [Digit(n)] else Decimal(n / 10) + [Digit(n % 10)]
  }

  /** The value of a string of digits; the empty string has value 0. */
  function Value(s: string): Option<nat> {
    if s == "" then Some(0)
    else
      var c := s[|s| - 1];
      match Value(s[..|s| - 1])
      case Some(v) => if IsDigit(c) then Some(10 * v + (c as int - '0' as int)) else None
      case None => None
  }

  /** Go's strconv.Atoi on a 64-bit platform: an optional sign, at least one digit, and a value in range. */
  function Atoi(s: string): Option<int> {
    var signed := s != "" && (s[0] == '-' || s[0] == '+');
    var body := if signed then s[1..] else s;
    match Value(body)
    case None => None
    case Some(v) =>
      var x: int := if signed && s[0] == '-' then 0 - v else v;
      if body != "" && MIN_INT64 <= x <= MAX_INT64 then Some(x) else None
  }

  function TrimSuffix(s: string, suffix: string): string {
    if |suffix| <= |s| && s[|s| - |suffix|..] == suffix then s[..|s| - |suffix|] else s
  }

  function PartName(i: nat, ext: string): string { Decimal(i) + ext }

  /** The part index that `Get` reads off a file name, if it takes the file for a part. */
  function IndexForGet(name: string, ext: string): Option<int> {
    if "hash_" <= name then None else Atoi(TrimSuffix(name, ext))
  }

  /** The same for `List`, which trims the extension first and only then looks for a complete hash name. */
  function IndexForList(name: string, ext: string): Option<int> {
    var trimmed := TrimSuffix(name, ext);
    if "hash_" <= trimmed && '_' in trimmed[5..] then None else Atoi(trimmed)
  }

  /** strings.Cut: what stands before and behind the first separator, if there is one. */
  function Cut(s: string, c: char): Option<(string, string)> {
    if s == "" then None
    else if s[0] == c then Some(("", s[1..]))
    else
      match Cut(s[1..], c)
      case None => None
      case Some(p) => Some(([s[0]] + p.0, p.1))
  }

  lemma {:induction false} CutAtFirst(a: string, c: char, b: string)
    requires c !in a
    ensures Cut(a + [c] + b, c) == Some((a, b))
  {
    var s := a + [c] + b;
    if a == "" {
      assert s[0] == c && s[1..] == b;
    } else {
      assert s[0] == a[0] && s[1..] == a[1..] + [c] + b;
      CutAtFirst(a[1..], c, b);
      assert [a[0]] + a[1..] == a;
    }
  }

  function HashName(kind: string, value: string, ext: string): string {
    "hash_" + kind + "_" + value + ext
  }

  /** The hash that `Get` reads off a file name, its kind and its value. */
  function HashOfName(name: string, ext: string): Option<(string, string)> {
    if "hash_" <= name then Cut(TrimSuffix(name[5..], ext), '_') else None
  }

  /** `Get` reads back the hash that `Put` writes into a name, whatever the value and the extension. */
  lemma HashNameReadBack(kind: string, value: string, ext: string)
    requires '_' !in kind
    ensures HashOfName(HashName(kind, value, ext), ext) == Some((kind, value))
  {
    var name := HashName(kind, value, ext);
    var body := kind + ['_'] + value;
    assert name == "hash_" + (body + ext);
    assert name[5..] == body + ext && (body + ext)[|body|..] == ext && (body + ext)[..|body|] == body;
    CutAtFirst(kind, '_', value);
  }

  lemma {:induction false} ValueOfDecimal(n: nat)
    ensures Value(Decimal(n)) == Some(n)
    ensures |Decimal(n)| > 0 && forall c :: c in Decimal(n) ==> IsDigit(c)
  {
    var s := Decimal(n);
    if n < 10 {
      assert s[..0] == "";
    } else {
      ValueOfDecimal(n / 10);
      assert s[..|s| - 1] == Decimal(n / 10);
    }
  }

  /** A numeral has no leading zeros, and it is written in base ten. */
  lemma {:induction false} NoLeadingZero(n: nat)
    ensures n > 0 ==> Decimal(n)[0] != '0'
    ensures Decimal(10) == "10"
  {
    if n >= 10 {
      NoLeadingZero(n / 10);
    } else {
      assert Decimal(10) == Decimal(1) + [Digit(0)];
    }
  }

  lemma {:induction false} ValueIff(s: string)
    ensures Value(s).Some? <==> forall c :: c in s ==> IsDigit(c)
  {
    if s != "" {
      var n := |s| - 1;
      assert s == s[..n] + [s[n]];
      ValueIff(s[..n]);
    }
  }

  /** Atoi accepts one or more digits behind at most one sign, with a value that fits. */
  lemma AtoiAccepts(sign: string, digits: string)
    requires sign in {"", "+", "-"} && forall c :: c in digits ==> IsDigit(c)
    ensures Value(digits).Some?
    ensures var x: int := if sign == "-" then 0 - Value(digits).value else Value(digits).value;
      Atoi(sign + digits) == if digits != "" && MIN_INT64 <= x <= MAX_INT64 then Some(x) else None
  {
    ValueIff(digits);
    hide Value;
    assert digits != "" ==> digits[0] in digits;
    if sign == "" {
      assert sign + digits == digits;
    } else {
      assert (sign + digits)[1..] == digits && (sign + digits)[0] == sign[0];
    }
  }

  /** And nothing else. */
  lemma AtoiRejects(s: string) returns (sign: string, digits: string)
    requires Atoi(s).Some?
    ensures sign in {"", "+", "-"} && s == sign + digits
    ensures digits != "" && forall c :: c in digits ==> IsDigit(c)
  {
    hide Value;
    if s != "" && (s[0] == '-' || s[0] == '+') {
      sign, digits := s[..1], s[1..];
      assert s[..1] == [s[0]];
    } else {
      sign, digits := "", s;
    }
    ValueIff(digits);
  }

  lemma AtoiOfDecimal(n: nat)
    requires n <= MAX_INT64
    ensures Atoi(Decimal(n)) == Some(n)
  {
    ValueOfDecimal(n);
    assert Decimal(n)[0] in Decimal(n);
  }

  lemma {:induction false} ValueNeedsDigits(s: string, i: nat)
    requires i < |s| && !IsDigit(s[i])
    ensures Value(s) == None
  {
    if i < |s| - 1 {
      ValueNeedsDigits(s[..|s| - 1], i);
    }
  }

  /** A name that starts like a hash file's never parses as a number, however much of it the extension eats. */
  lemma HashLikeIsNoNumber(s: string)
    requires s == "" || s[0] == 'h'
    ensures Atoi(s) == None
  {
    if s != "" {
      ValueNeedsDigits(s, 0);
    }
  }

  /** `List` and `Get` take exactly the same files for parts, for every file name and every extension. */
  lemma ListAndGetAgreeOnNames(name: string, ext: string)
    ensures IndexForList(name, ext) == IndexForGet(name, ext)
  {
    var trimmed := TrimSuffix(name, ext);
    assert trimmed <= name;
    if "hash_" <= name {
      assert name[0] == 'h';
      HashLikeIsNoNumber(trimmed);
    }
  }

  /** Reading back the name that `Put` gives to part `i` yields `i`, whatever the extension. */
  lemma IndexOfPartName(i: nat, ext: string)
    requires i <= MAX_INT64
    ensures IndexForGet(PartName(i, ext), ext) == Some(i)
  {
    var name := PartName(i, ext);
    ValueOfDecimal(i);
    AtoiOfDecimal(i);
    assert name[|name| - |ext|..] == ext && name[..|name| - |ext|] == Decimal(i);
    assert name[0] == Decimal(i)[0] && Decimal(i)[0] in Decimal(i);
  }

  /** The extension may as well be missing: a file whose name is a bare numeral is taken for that part, too. */
  lemma BareNumeralIsAPart(i: nat, ext: string)
    requires i <= MAX_INT64 && ext != "" && !IsDigit(ext[|ext| - 1])
    ensures IndexForGet(Decimal(i), ext) == Some(i) && Decimal(i) != PartName(i, ext)
  {
    var name := Decimal(i);
    ValueOfDecimal(i);
    AtoiOfDecimal(i);
    assert name[0] in name && name[|name| - 1] in name;
  }

  /** Only a numeral with at most one sign names a part, with or without the extension behind it. */
  lemma IndexMeans(name: string, ext: string) returns (sign: string, digits: string)
    requires IndexForGet(name, ext).Some?
    ensures name == sign + digits || name == sign + digits + ext
    ensures sign in {"", "+", "-"} && digits != "" && (forall c :: c in digits ==> IsDigit(c)) && Value(digits).Some?
    ensures IndexForGet(name, ext) == Some(if sign == "-" then 0 - Value(digits).value else Value(digits).value)
  {
    var trimmed := TrimSuffix(name, ext);
    assert name == trimmed || name == trimmed + ext;
    sign, digits := AtoiRejects(trimmed);
    AtoiAccepts(sign, digits);
    hide TrimSuffix, Value, Atoi, IsDigit;
  }
}
