/** BuildTree undoes printing with an indent of two spaces per level. */
module IndentTreePrint {
  import opened TextLines
  import opened IndentTree

  /** A folder tree as its author writes it down. */
  datatype Src = FolderSrc(name: string, children: seq<Src>) | FileSrc(line: string)

  predicate WellFormed(s: Src, files: FileLines) {
    match s
    case FolderSrc(name, children) =>
      '\n' !in name && (name == "" || !IsSpace(name[0])) && AllWellFormed(children, files)
    case FileSrc(line) =>
      line in files && line != "" && '\n' !in line && !IsSpace(line[0]) && !IsSpace(line[|line| - 1]) && !IsFolder(line)
  }

  predicate AllWellFormed(ss: seq<Src>, files: FileLines) {
    ss == [] || (WellFormed(ss[0], files) && AllWellFormed(ss[1..], files))
  }

  function Body(s: Src): string {
    if s.FolderSrc? then s.name + ":" else s.line
  }

  /** The printed lines: each one indented by twice its level, folders before their contents. */
  function Print(ss: seq<Src>, level: nat): seq<string>
    decreases ss
  {
    if ss == [] then []
    else [Spaces(2 * level) + Body(ss[0])] + PrintBelow(ss[0], level) + Print(ss[1..], level)
  }

  function PrintBelow(s: Src, level: nat): seq<string>
    decreases s
  {
    if s.FolderSrc? then Print(s.children, level + 1) else []
  }

  function PrintText(ss: seq<Src>): string {
    var lines := Print(ss, 0);
    if lines == [] then "" else Join(lines, '\n')
  }

  function LineOf(s: Src, level: nat, files: FileLines): Line
    requires WellFormed(s, files)
  {
    if s.FolderSrc? then Folder(level, s.name) else File(level, files[s.line])
  }

  /** The nodes that the sources denote. */
  function TreesOf(ss: seq<Src>, level: nat, files: FileLines): seq<Node>
    requires AllWellFormed(ss, files)
    decreases ss
  {
    if ss == [] then []
    else
      var leaf := Leaf(LineOf(ss[0], level, files));
      [leaf.(children := TreesBelow(ss[0], level, files))] + TreesOf(ss[1..], level, files)
  }

  function TreesBelow(s: Src, level: nat, files: FileLines): seq<Node>
    requires WellFormed(s, files)
    decreases s
  {
    if s.FolderSrc? then TreesOf(s.children, level + 1, files) else []
  }

  // ---------- The printed lines are read back ----------

  function LinesOf(ss: seq<Src>, level: nat, files: FileLines): seq<Line>
    requires AllWellFormed(ss, files)
    decreases ss
  {
    if ss == [] then []
    else [LineOf(ss[0], level, files)] + LinesBelow(ss[0], level, files) + LinesOf(ss[1..], level, files)
  }

  function LinesBelow(s: Src, level: nat, files: FileLines): seq<Line>
    requires WellFormed(s, files)
    decreases s
  {
    if s.FolderSrc? then LinesOf(s.children, level + 1, files) else []
  }

  lemma TrimNothing(s: string)
    requires s != "" && !IsSpace(s[0]) && !IsSpace(s[|s| - 1])
    ensures TrimSpace(s) == s
  {
  }

  lemma BodyIsPlain(s: Src, files: FileLines)
    requires WellFormed(s, files)
    ensures Body(s) != "" && !IsSpace(Body(s)[0]) && TrimSpace(Body(s)) == Body(s)
  {
    var body := Body(s);
    assert body != "" && !IsSpace(body[0]) && !IsSpace(body[|body| - 1]);
    TrimNothing(body);
  }

  lemma BodyIsRead(s: Src, files: FileLines)
    requires WellFormed(s, files)
    ensures IsFolder(Body(s)) <==> s.FolderSrc?
    ensures s.FolderSrc? ==> Body(s)[..|Body(s)| - 1] == s.name
    ensures s.FileSrc? ==> Body(s) == s.line
  {
    hide IsSpace;
  }

  lemma ClassifyPrinted(s: Src, level: nat, files: FileLines)
    requires WellFormed(s, files)
    ensures Classify(Spaces(2 * level) + Body(s), files) == LineOf(s, level, files)
  {
    BodyIsPlain(s, files);
    BodyIsRead(s, files);
    IndentOf(2 * level, Body(s));
    hide Indent, Spaces, TrimSpace, IsSpace, IsFolder, Body;
  }

  ghost predicate ReadsAs(lines: seq<string>, ls: seq<Line>, files: FileLines) {
    |lines| == |ls| && forall i :: 0 <= i < |lines| ==>
      Classify(lines[i], files) == ls[i] && '\n' !in lines[i] && (ls[i].Folder? || ls[i].File?)
  }

  lemma ReadsAsConcat(a: seq<string>, la: seq<Line>, b: seq<string>, lb: seq<Line>, files: FileLines)
    requires ReadsAs(a, la, files) && ReadsAs(b, lb, files)
    ensures ReadsAs(a + b, la + lb, files)
  {
  }

  lemma {:induction false} PrintedReadsBack(ss: seq<Src>, level: nat, files: FileLines)
    requires AllWellFormed(ss, files)
    ensures ReadsAs(Print(ss, level), LinesOf(ss, level, files), files)
    decreases ss
  {
    if ss != [] {
      OneReadsBack(ss[0], level, files);
      PrintedReadsBack(ss[1..], level, files);
      hide ReadsAs, WellFormed, Body;
      ReadsAsConcat([Spaces(2 * level) + Body(ss[0])] + PrintBelow(ss[0], level),
        [LineOf(ss[0], level, files)] + LinesBelow(ss[0], level, files),
        Print(ss[1..], level), LinesOf(ss[1..], level, files), files);
    }
  }

  lemma HeadReadsBack(s: Src, level: nat, files: FileLines)
    requires WellFormed(s, files)
    ensures ReadsAs([Spaces(2 * level) + Body(s)], [LineOf(s, level, files)], files)
  {
    ClassifyPrinted(s, level, files);
    assert '\n' !in Body(s);
    SpacesHaveNoBreak(2 * level);
    hide Classify, WellFormed, Body, Spaces;
  }

  lemma {:induction false} SpacesHaveNoBreak(n: nat)
    ensures '\n' !in Spaces(n)
  {
    if n > 0 {
      SpacesHaveNoBreak(n - 1);
    }
  }

  lemma {:induction false} OneReadsBack(s: Src, level: nat, files: FileLines)
    requires WellFormed(s, files)
    ensures ReadsAs([Spaces(2 * level) + Body(s)] + PrintBelow(s, level),
      [LineOf(s, level, files)] + LinesBelow(s, level, files), files)
    decreases s, 1
  {
    hide *;
    HeadReadsBack(s, level, files);
    BelowReadsBack(s, level, files);
    ReadsAsConcat([Spaces(2 * level) + Body(s)], [LineOf(s, level, files)], PrintBelow(s, level),
      LinesBelow(s, level, files), files);
  }

  lemma {:induction false} BelowReadsBack(s: Src, level: nat, files: FileLines)
    requires WellFormed(s, files)
    ensures ReadsAs(PrintBelow(s, level), LinesBelow(s, level, files), files)
    decreases s, 0
  {
    hide Classify, Print, LinesOf, Body, IsSpace;
    if s.FolderSrc? {
      PrintedReadsBack(s.children, level + 1, files);
    }
  }

  /** The lines of the printed text are the lines printed; an empty text has one blank line. */
  lemma TextReadsBack(ss: seq<Src>, files: FileLines)
    requires AllWellFormed(ss, files)
    ensures Lines(PrintText(ss), files) == if ss == [] then [Blank] else LinesOf(ss, 0, files)
    ensures Malformed !in LinesOf(ss, 0, files)
  {
    var lines := Print(ss, 0);
    PrintedReadsBack(ss, 0, files);
    if ss != [] {
      forall p | p in lines ensures '\n' !in p {
        var i :| 0 <= i < |lines| && lines[i] == p;
      }
      SplitJoin(lines, '\n');
      hide Classify;
    }
  }

  // ---------- The run rebuilds the tree ----------

  function AppendAll(t: Node, d: nat, cs: seq<Node>): (r: Node)
    requires HasSpine(t, d)
    ensures HasSpine(r, d)
    decreases |cs|
  {
    if cs == [] then t
    else
      var u := AppendAt(t, d, cs[0]);
      SpinePrefix(u, d, d + 1);
      AppendAll(u, d, cs[1..])
  }

  lemma {:induction false} AppendNested(t: Node, d: nat, x: Node, c: Node)
    requires HasSpine(t, d)
    ensures AppendAt(AppendAt(t, d, x), d + 1, c) == AppendAt(t, d, x.(children := x.children + [c]))
    decreases d
  {
    var n := |t.children|;
    var u := AppendAt(t, d, x);
    if d == 0 {
      assert u.children[..n] == t.children && u.children[n] == x;
    } else {
      AppendNested(t.children[n - 1], d - 1, x, c);
      assert u.children[..n - 1] == t.children[..n - 1];
    }
  }

  /** Filling a folder that was just appended is appending the filled folder. */
  lemma {:induction false} FillFolder(t: Node, d: nat, x: Node, cs: seq<Node>)
    requires HasSpine(t, d)
    ensures AppendAll(AppendAt(t, d, x), d + 1, cs) == AppendAt(t, d, x.(children := x.children + cs))
    decreases |cs|
  {
    if cs == [] {
      assert x.children + cs == x.children;
    } else {
      var y := x.(children := x.children + [cs[0]]);
      AppendNested(t, d, x, cs[0]);
      FillFolder(t, d, y, cs[1..]);
      assert y.children + cs[1..] == x.children + cs;
    }
  }

  lemma {:induction false} FillRoot(t: Node, cs: seq<Node>)
    ensures AppendAll(t, 0, cs) == t.(children := t.children + cs)
    decreases |cs|
  {
    if cs == [] {
      assert t.children + cs == t.children;
    } else {
      var u := t.(children := t.children + [cs[0]]);
      FillRoot(u, cs[1..]);
      assert u.children + cs[1..] == t.children + cs;
    }
  }

  lemma {:induction false} PopTwice(stack: seq<int>, high: nat, low: nat)
    requires stack != [] && stack[0] < 0 && low <= high
    ensures Pop(Pop(stack, high), low) == Pop(stack, low)
  {
    if high <= stack[|stack| - 1] {
      PopTwice(stack[..|stack| - 1], high, low);
    }
  }

  lemma {:induction false} RunConcat(b: Build, xs: seq<Line>, ys: seq<Line>)
    requires Valid(b) && Malformed !in xs && Malformed !in ys
    ensures Malformed !in xs + ys && Run(b, xs + ys) == Run(Run(b, xs), ys)
    decreases |xs|
  {
    if xs == [] {
      assert xs + ys == ys;
    } else {
      assert (xs + ys)[0] == xs[0] && (xs + ys)[1..] == xs[1..] + ys;
      RunConcat(Step(b, xs[0]), xs[1..], ys);
    }
  }

  /** The printed lines of a forest, read while node `d` is the deepest open one above their level: the forest
      is appended to that node, and the open nodes above that level are the same afterwards. */
  lemma {:induction false} RunForest(b: Build, d: nat, ss: seq<Src>, level: nat, files: FileLines)
    requires Valid(b) && AllWellFormed(ss, files) && |Pop(b.stack, level)| == d + 1
    ensures Malformed !in LinesOf(ss, level, files) && HasSpine(b.root, d)
    ensures Run(b, LinesOf(ss, level, files)).root == AppendAll(b.root, d, TreesOf(ss, level, files))
    ensures Pop(Run(b, LinesOf(ss, level, files)).stack, level) == Pop(b.stack, level)
    decreases ss
  {
    SpinePrefix(b.root, d, |b.stack| - 1);
    if ss != [] {
      var l := LineOf(ss[0], level, files);
      var inner := LinesBelow(ss[0], level, files);
      var rest := LinesOf(ss[1..], level, files);
      var first := TreesOf(ss, level, files)[0];
      assert LinesOf(ss, level, files) == [l] + inner + rest;
      var c := RunOne(b, d, ss[0], level, files);
      RunForest(c, d, ss[1..], level, files);
      RunConcat(b, [l] + inner, rest);
      assert TreesOf(ss, level, files) == [first] + TreesOf(ss[1..], level, files);
    }
  }

  /** The lines of one folder or file and of everything in it. */
  lemma {:induction false} RunOne(b: Build, d: nat, s: Src, level: nat, files: FileLines) returns (c: Build)
    requires Valid(b) && WellFormed(s, files) && |Pop(b.stack, level)| == d + 1 && HasSpine(b.root, d)
    ensures Malformed !in [LineOf(s, level, files)] + LinesBelow(s, level, files)
    ensures c == Run(b, [LineOf(s, level, files)] + LinesBelow(s, level, files))
    ensures Valid(c) && Pop(c.stack, level) == Pop(b.stack, level)
    ensures c.root == AppendAt(b.root, d, Leaf(LineOf(s, level, files)).(children := TreesBelow(s, level, files)))
    decreases s
  {
    hide Run, Step, Valid, AppendAt, HasSpine, LinesOf, TreesOf, Pop, AppendAll;
    var l := LineOf(s, level, files);
    var b1 := RunLine(b, d, l);
    if s.FolderSrc? {
      RunForest(b1, d + 1, s.children, level + 1, files);
      c := RunFilled(b, b1, d, l, LinesOf(s.children, level + 1, files), TreesOf(s.children, level + 1, files));
    } else {
      c := b1;
      assert [l] + [] == [l];
    }
  }

  lemma RunFilled(b: Build, b1: Build, d: nat, l: Line, inner: seq<Line>, cs: seq<Node>) returns (c: Build)
    requires Valid(b) && l.Folder? && Malformed !in inner && HasSpine(b.root, d)
    requires b1 == Run(b, [l]) && Valid(b1) && b1.root == AppendAt(b.root, d, Leaf(l))
    requires Pop(b1.stack, l.level) == Pop(b.stack, l.level)
    requires Run(b1, inner).root == AppendAll(b1.root, d + 1, cs)
    requires Valid(Run(b1, inner)) && Pop(Run(b1, inner).stack, l.level + 1) == Pop(b1.stack, l.level + 1)
    ensures Malformed !in [l] + inner && c == Run(b, [l] + inner) && Valid(c) &&
      Pop(c.stack, l.level) == Pop(b.stack, l.level)
    ensures c.root == AppendAt(b.root, d, Leaf(l).(children := cs))
  {
    assert Leaf(l).children + cs == cs;
    hide Run, Step, AppendAt, HasSpine, Leaf, Pop, AppendAll;
    c := Run(b1, inner);
    RunConcat(b, [l], inner);
    PopTwice(c.stack, l.level + 1, l.level);
    PopTwice(b1.stack, l.level + 1, l.level);
    FillFolder(b.root, d, Leaf(l), cs);
  }

  /** One line of level `level`. */
  lemma RunLine(b: Build, d: nat, l: Line) returns (c: Build)
    requires Valid(b) && (l.Folder? || l.File?) && |Pop(b.stack, l.level)| == d + 1 && HasSpine(b.root, d)
    ensures Malformed !in [l] && c == Run(b, [l]) && Valid(c) && c.root == AppendAt(b.root, d, Leaf(l))
    ensures Pop(c.stack, l.level) == Pop(b.stack, l.level)
    ensures l.Folder? ==> |Pop(c.stack, l.level + 1)| == d + 2
  {
    var popped := Pop(b.stack, l.level);
    c := Step(b, l);
    StepLine(b, l);
    assert [l][1..] == [];
    hide Step;
    PopTwice(b.stack, l.level, l.level);
    assert (popped + [l.level as int])[..d + 1] == popped;
  }

  lemma StepLine(b: Build, l: Line)
    requires Valid(b) && (l.Folder? || l.File?) && HasSpine(b.root, |Pop(b.stack, l.level)| - 1)
    ensures var popped := Pop(b.stack, l.level);
      && Step(b, l).stack == (if l.Folder? then popped + [l.level as int] else popped)
      && Step(b, l).root == AppendAt(b.root, |popped| - 1, Leaf(l))
  {
    hide Pop, AppendAt, HasSpine;
  }

  /** BuildTree is the inverse of printing. */
  lemma BuildUndoesPrint(ss: seq<Src>, files: FileLines)
    requires AllWellFormed(ss, files)
    ensures Malformed !in Lines(PrintText(ss), files)
    ensures Run(EMPTY, Lines(PrintText(ss), files)).root == ROOT.(children := TreesOf(ss, 0, files))
  {
    TextReadsBack(ss, files);
    if ss == [] {
      assert [Blank][1..] == [];
      assert Run(EMPTY, [Blank]) == EMPTY;
    } else {
      RunForest(EMPTY, 0, ss, 0, files);
      FillRoot(ROOT, TreesOf(ss, 0, files));
    }
  }
}
