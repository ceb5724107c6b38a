/** drivers/123_link/parse.go: building a folder tree from indented text with a stack of open folders. */
module IndentTree {
  import opened Results
  import opened TextLines

  type Url = s: string | s != "" witness "http://"

  datatype Node = Node(url: string, name: string, level: int, modified: int, size: int, children: seq<Node>)

  /** What parseFileLine makes of a file line; a line it rejects is not in the table. */
  datatype FileInfo = FileInfo(url: Url, name: string, modified: int, size: int)
  type FileLines = map<string, FileInfo>

  const ROOT := Node("", "root", -1, 0, 0, [])

  // ---------- Lines ----------

  datatype Line = Malformed | Blank | Folder(level: nat, name: string) | File(level: nat, info: FileInfo)

  function Classify(line: string, files: FileLines): Line {
    var indent := Indent(line);
    var body := TrimSpace(line[indent..]);
    if indent % 2 != 0 then Malformed
    else if body == "" then Blank
    else if IsFolder(body) then Folder(indent / 2, body[..|body| - 1])
    else if body in files then File(indent / 2, files[body])
    else Malformed
  }

  predicate IsFolder(body: string) {
    body != "" && body[|body| - 1] == ':'
  }

  /** The node of a folder or file line, still without children. */
  function Leaf(l: Line): Node
    requires l.Folder? || l.File?
  {
    match l
    case Folder(level, name) => Node("", name, level, 0, 0, [])
    case File(level, info) => Node(info.url, info.name, level, info.modified, info.size, [])
  }

  // ---------- The tree and its open folders ----------

  /** The open folders lie on the path of last children: the root, its last child, and so on. A pointer to
      the `d`-th entry of the stack is the `d`-th node of that path. */
  ghost predicate HasSpine(t: Node, d: nat)
    decreases d
  {
    d == 0 || (t.children != [] && HasSpine(t.children[|t.children| - 1], d - 1))
  }

  /** Appending a child to the `d`-th node of the path, in place. */
  function AppendAt(t: Node, d: nat, c: Node): (r: Node)
    requires HasSpine(t, d)
    ensures HasSpine(r, d + 1) && r == t.(children := r.children)
    decreases d
  {
    var n := |t.children|;
    if d == 0 then t.(children := t.children + [c])
    else t.(children := t.children[..n - 1] + [AppendAt(t.children[n - 1], d - 1, c)])
  }

  /** Popping the folders that a line of this level does not belong to. */
  function Pop(stack: seq<int>, level: nat): (r: seq<int>)
    requires stack != [] && stack[0] < 0
    ensures 1 <= |r| <= |stack| && r[0] == stack[0] && r[|r| - 1] < level
  {
    if level <= stack[|stack| - 1] then Pop(stack[..|stack| - 1], level) else stack
  }

  /** The tree under construction and the levels of the open folders. */
  datatype Build = Build(root: Node, stack: seq<int>)

  ghost predicate Valid(b: Build) {
    && b.stack != [] && b.stack[0] == -1
    && HasSpine(b.root, |b.stack| - 1)
  }

  lemma {:induction false} SpinePrefix(t: Node, d: nat, e: nat)
    requires HasSpine(t, e) && d <= e
    ensures HasSpine(t, d)
    decreases d
  {
    if d > 0 {
      SpinePrefix(t.children[|t.children| - 1], d - 1, e - 1);
    }
  }

  /** What one line does: pop, append a child to the top, push a folder. */
  ghost function Step(b: Build, l: Line): (r: Build)
    requires Valid(b) && !l.Malformed?
    ensures Valid(r)
  {
    if l.Blank? then b
    else
      var stack := Pop(b.stack, l.level);
      SpinePrefix(b.root, |stack| - 1, |b.stack| - 1);
      var root := AppendAt(b.root, |stack| - 1, Leaf(l));
      SpinePrefix(root, |stack| - 1, |stack|);
      Build(root, if l.Folder? then stack + [l.level as int] else stack)
  }

  ghost function Run(b: Build, ls: seq<Line>): (r: Build)
    requires Valid(b) && Malformed !in ls
    ensures Valid(r)
    decreases |ls|
  {
    if ls == [] then b else Run(Step(b, ls[0]), ls[1..])
  }

  function Lines(text: string, files: FileLines): seq<Line> {
    var raw := SplitOn(text, '\n');
    seq(|raw|, i requires 0 <= i < |raw| => Classify(raw[i], files))
  }

  const EMPTY := Build(ROOT, [-1])

  lemma RunSnoc(b: Build, ls: seq<Line>, l: Line)
    requires Valid(b) && Malformed !in ls && !l.Malformed?
    ensures Malformed !in ls + [l] && Run(b, ls + [l]) == Step(Run(b, ls), l)
    ensures l.Blank? ==> Run(b, ls + [l]) == Run(b, ls)
    decreases |ls|
  {
    if ls == [] {
      assert ls + [l] == [l] && [l][1..] == [];
    } else {
      assert (ls + [l])[1..] == ls[1..] + [l] && (ls + [l])[0] == ls[0];
      RunSnoc(Step(b, ls[0]), ls[1..], l);
    }
  }

  lemma RunNext(b: Build, ls: seq<Line>, i: nat)
    requires Valid(b) && i < |ls| && Malformed !in ls[..i]
    ensures ls[i].Malformed? ==> Malformed in ls
    ensures !ls[i].Malformed? ==> Malformed !in ls[..i + 1] && Run(b, ls[..i + 1]) == Step(Run(b, ls[..i]), ls[i])
    ensures ls[i].Blank? ==> Run(b, ls[..i + 1]) == Run(b, ls[..i])
  {
    assert ls[..i + 1] == ls[..i] + [ls[i]];
    if !ls[i].Malformed? {
      RunSnoc(b, ls[..i], ls[i]);
    } else {
      assert ls[i] in ls;
    }
  }

  /** BuildTree. It fails exactly when some line is malformed; the root is never popped. */
  method BuildTree(text: string, files: FileLines) returns (r: Failable<Node>)
    ensures r.Ok? <==> Malformed !in Lines(text, files)
    ensures r.Ok? ==> r.value == Run(EMPTY, Lines(text, files)).root
  {
    var raw := SplitOn(text, '\n');
    ghost var ls := Lines(text, files);
    var root, stack := ROOT, [-1];
    assert ls[..0] == [] && Run(EMPTY, []) == EMPTY;
    hide Run, Step, Classify, Valid;
    for i := 0 to |raw|
      invariant Malformed !in ls[..i] && Build(root, stack) == Run(EMPTY, ls[..i])
    {
      var l := ReadLine(raw[i], files);
      assert l == ls[i];
      RunNext(EMPTY, ls, i);
      if l.Malformed? {
        return Err(());
      }
      if !l.Blank? {
        root, stack := AddLine(root, stack, l);
      }
    }
    assert ls[..|raw|] == ls;
    return Ok(root);
  }

  /** Counting the indent, checking it, trimming the line, and telling folders from files. */
  method ReadLine(line: string, files: FileLines) returns (l: Line)
    ensures l == Classify(line, files)
  {
    var indent := 0;
    while indent < |line| && line[indent] == ' '
      invariant indent <= |line| && Indent(line) == indent + Indent(line[indent..])
    {
      assert line[indent..][1..] == line[indent + 1..];
      indent := indent + 1;
    }
    if indent % 2 != 0 {
      return Malformed;
    }
    var body := TrimSpace(line[indent..]);
    if body == "" {
      return Blank;
    }
    if IsFolder(body) {
      return Folder(indent / 2, body[..|body| - 1]);
    }
    if body !in files {
      return Malformed;
    }
    return File(indent / 2, files[body]);
  }

  /** The part of the loop body that works on the stack. */
  method AddLine(root: Node, stack: seq<int>, l: Line) returns (root': Node, stack': seq<int>)
    requires Valid(Build(root, stack)) && (l.Folder? || l.File?)
    ensures Build(root', stack') == Step(Build(root, stack), l)
  {
    stack' := stack;
    while l.level <= stack'[|stack'| - 1]
      invariant 1 <= |stack'| <= |stack| && stack'[0] == -1 && Pop(stack', l.level) == Pop(stack, l.level)
      decreases |stack'|
    {
      stack' := stack'[..|stack'| - 1];
    }
    SpinePrefix(root, |stack'| - 1, |stack| - 1);
    root' := AppendAt(root, |stack'| - 1, Leaf(l));
    if l.Folder? {
      stack' := stack' + [l.level];
    }
  }
}
