/** From a folder tree as its author writes it down to the lookup of a path in the tree that BuildTree makes of it. */
module IndentTreeLookup {
  import opened Options
  import opened Results
  import opened TextLines
  import opened IndentTree
  import opened IndentTreePrint
  import opened NodeTree

  function NameOf(s: Src, files: FileLines): string
    requires WellFormed(s, files)
  {
    if s.FolderSrc? then s.name else files[s.line].name
  }

  lemma {:induction false} OneWellFormed(ss: seq<Src>, i: nat, files: FileLines)
    requires AllWellFormed(ss, files) && i < |ss|
    ensures WellFormed(ss[i], files)
    ensures ss[i].FolderSrc? ==> AllWellFormed(ss[i].children, files)
  {
    if i > 0 {
      OneWellFormed(ss[1..], i - 1, files);
    }
  }

  /** Going from source number `p[0]` to number `p[1]` of its contents and so on passes sources with exactly these names
      and ends at `s`. */
  ghost predicate Chain(ss: seq<Src>, p: seq<nat>, names: seq<string>, s: Src, files: FileLines)
    requires AllWellFormed(ss, files)
    decreases |p|
  {
    && p != [] && |names| == |p| && p[0] < |ss|
    && (OneWellFormed(ss, p[0], files); NameOf(ss[p[0]], files) == names[0])
    && if |p| == 1 then s == ss[p[0]] else ss[p[0]].FolderSrc? && Chain(ss[p[0]].children, p[1..], names[1..], s, files)
  }

  /** The node says what the source says: a folder has its name and its contents, a file the fields of its line. */
  ghost predicate Denotes(n: Node, s: Src, level: nat, files: FileLines)
    decreases s
  {
    n.level == level &&
    match s
    case FolderSrc(name, children) =>
      && n.url == "" && n.name == name && n.size == n.modified == 0 && |n.children| == |children|
      && forall i :: 0 <= i < |children| ==> Denotes(n.children[i], children[i], level + 1, files)
    case FileSrc(line) =>
      && line in files && n.url == files[line].url && n.name == files[line].name
      && n.size == files[line].size && n.modified == files[line].modified && n.children == []
  }

  ghost predicate DenoteAll(ns: seq<Node>, ss: seq<Src>, level: nat, files: FileLines) {
    |ns| == |ss| && forall i :: 0 <= i < |ss| ==> Denotes(ns[i], ss[i], level, files)
  }

  lemma OneDenotes(s: Src, level: nat, cs: seq<Node>, files: FileLines)
    requires WellFormed(s, files)
    requires if s.FolderSrc? then DenoteAll(cs, s.children, level + 1, files) else cs == []
    ensures Denotes(Leaf(LineOf(s, level, files)).(children := cs), s, level, files)
  {
  }

  lemma {:induction false} TreesDenote(ss: seq<Src>, level: nat, files: FileLines)
    requires AllWellFormed(ss, files)
    ensures DenoteAll(TreesOf(ss, level, files), ss, level, files)
    decreases ss
  {
    hide Denotes, Leaf, LineOf;
    if ss != [] {
      TreesDenote(ss[1..], level, files);
      if ss[0].FolderSrc? {
        TreesDenote(ss[0].children, level + 1, files);
      }
      OneDenotes(ss[0], level, TreesBelow(ss[0], level, files), files);
      var ns, rest := TreesOf(ss, level, files), TreesOf(ss[1..], level, files);
      assert Denotes(ns[0], ss[0], level, files);
      forall i | 0 < i < |ss| ensures Denotes(ns[i], ss[i], level, files) {
        assert ns[i] == rest[i - 1] && ss[i] == ss[1..][i - 1];
      }
    }
  }

  lemma DenotedName(n: Node, s: Src, level: nat, files: FileLines)
    requires Denotes(n, s, level, files) && WellFormed(s, files)
    ensures n.name == NameOf(s, files)
    ensures if s.FolderSrc? then DenoteAll(n.children, s.children, level + 1, files) else n.children == []
  {
  }

  /** A walk to a node below the root goes along a chain of sources. */
  lemma {:induction false} ChainOfWalk(t: Node, ss: seq<Src>, level: nat, p: seq<nat>, names: seq<string>, n: Node,
      files: FileLines) returns (s: Src)
    requires AllWellFormed(ss, files) && DenoteAll(t.children, ss, level, files)
    requires p != [] && Leads(t, p, [t.name] + names, n)
    ensures Chain(ss, p, names, s, files) && Denotes(n, s, level + |p| - 1, files)
    decreases |p|
  {
    var c, src := t.children[p[0]], ss[p[0]];
    assert ([t.name] + names)[1..] == names;
    OneWellFormed(ss, p[0], files);
    DenotedName(c, src, level, files);
    if |p| == 1 {
      s := src;
    } else {
      assert names == [c.name] + names[1..];
      s := ChainOfWalk(c, src.children, level + 1, p[1..], names[1..], n, files);
    }
  }

  /** And every chain of sources is the walk to a node. */
  lemma {:induction false} WalkOfChain(t: Node, ss: seq<Src>, level: nat, p: seq<nat>, names: seq<string>, s: Src,
      files: FileLines) returns (n: Node)
    requires AllWellFormed(ss, files) && DenoteAll(t.children, ss, level, files) && Chain(ss, p, names, s, files)
    ensures Leads(t, p, [t.name] + names, n) && Denotes(n, s, level + |p| - 1, files)
    decreases |p|
  {
    var c, src := t.children[p[0]], ss[p[0]];
    assert ([t.name] + names)[1..] == names;
    OneWellFormed(ss, p[0], files);
    DenotedName(c, src, level, files);
    if |p| == 1 {
      n := c;
      assert p[1..] == [];
    } else {
      n := WalkOfChain(c, src.children, level + 1, p[1..], names[1..], s, files);
      assert names == [c.name] + names[1..];
    }
  }

  /** Of the chains with these names, `p` comes first, and `n` is the node of its last source. */
  ghost predicate IsFirstFound(ss: seq<Src>, names: seq<string>, p: seq<nat>, n: Node, files: FileLines)
    requires AllWellFormed(ss, files)
  {
    && (exists s :: Chain(ss, p, names, s, files) && Denotes(n, s, |p| - 1, files))
    && forall q, s :: Chain(ss, q, names, s, files) ==> NotAfter(p, q)
  }

  lemma FoundIsFirst(root: Node, ss: seq<Src>, names: seq<string>, p: seq<nat>, n: Node, files: FileLines)
    requires AllWellFormed(ss, files) && DenoteAll(root.children, ss, 0, files) && names != []
    requires LeadsFirst(root, p, [root.name] + names, n)
    ensures IsFirstFound(ss, names, p, n, files)
  {
    hide Denotes, Chain, DenoteAll, WellFormed, AllWellFormed, NotAfter;
    assert p != [];
    var s := ChainOfWalk(root, ss, 0, p, names, n, files);
    hide Leads;
    forall q, s' | Chain(ss, q, names, s', files) ensures NotAfter(p, q) {
      var m := WalkOfChain(root, ss, 0, q, names, s', files);
    }
  }

  lemma NowhereIsNoChain(root: Node, ss: seq<Src>, names: seq<string>, files: FileLines)
    requires AllWellFormed(ss, files) && DenoteAll(root.children, ss, 0, files)
    requires LeadsNowhere(root, [root.name] + names)
    ensures forall p, s :: !Chain(ss, p, names, s, files)
  {
    hide Denotes, DenoteAll, Leads, WellFormed, AllWellFormed;
    forall p, s ensures !Chain(ss, p, names, s, files) {
      if Chain(ss, p, names, s, files) {
        var n := WalkOfChain(root, ss, 0, p, names, s, files);
      }
    }
  }

  /** Building the tree from the text that its author writes, and looking up a path in it: it succeeds exactly if the
      author wrote a chain of folders and files with these names, and then gives the node of the first such chain. */
  method BuildAndFind(ss: seq<Src>, names: seq<string>, files: FileLines) returns (r: Option<Node>)
    requires AllWellFormed(ss, files)
    requires names != [] && names != [""] && forall name :: name in names ==> '/' !in name
    ensures r.None? ==> forall p, s :: !Chain(ss, p, names, s, files)
    ensures r.Some? ==> exists p :: IsFirstFound(ss, names, p, r.value, files)
  {
    hide LeadsNowhere, LeadsFirst, Chain, DenoteAll, Run, Lines, PrintText, TreesOf, IsFirstFound, SplitPath, Join;
    BuildUndoesPrint(ss, files);
    TreesDenote(ss, 0, files);
    SplitPathOf("", names);
    var built := BuildTree(PrintText(ss), files);
    var root := built.value;
    r := GetNodeFromRootByPath(root, Join([""] + names, '/'));
    if r.None? {
      NowhereIsNoChain(root, ss, names, files);
    } else {
      ghost var p :| LeadsFirst(root, p, ["root"] + names, r.value);
      FoundIsFirst(root, ss, names, p, r.value, files);
    }
  }
}
