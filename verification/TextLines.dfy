/** The string operations that the parsers use: splitting at a separator, trimming white space, counting indent. */
module TextLines {

  function SplitOn(s: string, c: char): (parts: seq<string>)
    ensures parts != []
  {
    if s == "" then [""]
    else
      var rest := SplitOn(s[1..], c);
      if s[0] == c then [""] + rest else [[s[0]] + rest[0]] + rest[1..]
  }

  function Join(parts: seq<string>, c: char): string
    requires parts != []
  {
    if |parts| == 1 then parts[0] else parts[0] + [c] + Join(parts[1..], c)
  }

  lemma {:induction false} SplitFirst(p: string, rest: string, c: char)
    requires c !in p
    ensures SplitOn(p + [c] + rest, c) == [p] + SplitOn(rest, c)
    ensures SplitOn(p, c) == [p]
  {
    if p == "" {
      assert (p + [c] + rest)[1..] == rest;
    } else {
      SplitFirst(p[1..], rest, c);
      assert (p + [c] + rest)[1..] == p[1..] + [c] + rest;
      assert p == [p[0]] + p[1..];
    }
  }

  /** Splitting undoes joining when no part contains the separator. */
  lemma {:induction false} SplitJoin(parts: seq<string>, c: char)
    requires parts != [] && forall p :: p in parts ==> c !in p
    ensures SplitOn(Join(parts, c), c) == parts
  {
    if |parts| == 1 {
      SplitFirst(parts[0], "", c);
    } else {
      SplitJoin(parts[1..], c);
      SplitFirst(parts[0], Join(parts[1..], c), c);
      assert parts == [parts[0]] + parts[1..];
    }
  }

  /** unicode.IsSpace. */
  predicate IsSpace(c: char) {
    var n := c as int;
    || 9 <= n <= 13 || n == 32 || n == 0x85 || n == 0xA0 || n == 0x1680
    || 0x2000 <= n <= 0x200A || n == 0x2028 || n == 0x2029 || n == 0x202F || n == 0x205F || n == 0x3000
  }

  function TrimLeft(s: string): string {
    if s != "" && IsSpace(s[0]) then TrimLeft(s[1..]) else s
  }

  function TrimRight(s: string): string {
    if s != "" && IsSpace(s[|s| - 1]) then TrimRight(s[..|s| - 1]) else s
  }

  function TrimSpace(s: string): string { TrimRight(TrimLeft(s)) }

  predicate AllSpace(s: string) {
    forall c :: c in s ==> IsSpace(c)
  }

  lemma {:induction false} TrimLeftIs(s: string) returns (a: string)
    ensures s == a + TrimLeft(s) && AllSpace(a)
    ensures TrimLeft(s) != "" ==> !IsSpace(TrimLeft(s)[0])
  {
    hide IsSpace;
    a := "";
    if s != "" && IsSpace(s[0]) {
      var b := TrimLeftIs(s[1..]);
      a := [s[0]] + b;
    }
  }

  lemma {:induction false} TrimRightIs(s: string) returns (b: string)
    ensures s == TrimRight(s) + b && AllSpace(b)
    ensures TrimRight(s) != "" ==> !IsSpace(TrimRight(s)[|TrimRight(s)| - 1])
  {
    hide IsSpace;
    b := "";
    if s != "" && IsSpace(s[|s| - 1]) {
      var a := TrimRightIs(s[..|s| - 1]);
      b := a + [s[|s| - 1]];
    }
  }

  /** Trimming takes white space off both ends, and all of it; printable ASCII is none. */
  lemma TrimIs(s: string) returns (a: string, b: string)
    ensures s == a + TrimSpace(s) + b && AllSpace(a) && AllSpace(b)
    ensures var t := TrimSpace(s); t != "" ==> !IsSpace(t[0]) && !IsSpace(t[|t| - 1])
    ensures IsSpace(' ') && IsSpace('\t') && IsSpace('\r') && forall c :: '!' <= c <= '~' ==> !IsSpace(c)
  {
    a := TrimLeftIs(s);
    b := TrimRightIs(TrimLeft(s));
    assert s == a + (TrimSpace(s) + b) == a + TrimSpace(s) + b;
  }

  /** The indent is all the spaces that a line begins with. */
  lemma {:induction false} IndentIs(line: string)
    ensures forall i :: 0 <= i < Indent(line) ==> line[i] == ' '
    ensures Indent(line) < |line| ==> line[Indent(line)] != ' '
  {
    if line != "" && line[0] == ' ' {
      IndentIs(line[1..]);
      assert forall i :: 1 <= i < |line| ==> line[i] == line[1..][i - 1];
    }
  }

  function Spaces(n: nat): string { seq(n, _ => ' ') }

  /** The number of spaces a line begins with. */
  function Indent(line: string): (n: nat)
    ensures n <= |line|
  {
    if line != "" && line[0] == ' ' then 1 + Indent(line[1..]) else 0
  }

  lemma {:induction false} IndentOf(n: nat, body: string)
    requires body == "" || body[0] != ' '
    ensures Indent(Spaces(n) + body) == n && (Spaces(n) + body)[n..] == body
  {
    if n > 0 {
      IndentOf(n - 1, body);
      assert (Spaces(n) + body)[1..] == Spaces(n - 1) + body;
    }
  }
}
