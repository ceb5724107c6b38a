/** drivers/123_link/types.go and the path lookup of parse.go: finding a node by its path, and the sizes of folders. */
module NodeTree {
  import opened Options
  import opened TextLines
  import opened IndentTree
  import opened IndentTreeShape

  // ---------- Lookup ----------

  /** Going from `t` to its child number `p[0]`, from there to child number `p[1]` and so on passes nodes with
      exactly these names and ends at `n`. */
  ghost predicate Leads(t: Node, p: seq<nat>, names: seq<string>, n: Node)
    decreases p
  {
    && |names| == |p| + 1 && t.name == names[0]
    && if p == [] then n == t else p[0] < |t.children| && Leads(t.children[p[0]], p[1..], names[1..], n)
  }

  /** The walk `p` comes first in the order of the children. */
  ghost predicate NotAfter(p: seq<nat>, q: seq<nat>) {
    p == [] || q == [] || p[0] < q[0] || (p[0] == q[0] && NotAfter(p[1..], q[1..]))
  }

  /** Of the walks past these names, this one comes first. */
  ghost predicate LeadsFirst(t: Node, p: seq<nat>, names: seq<string>, n: Node) {
    Leads(t, p, names, n) && forall q, m :: Leads(t, q, names, m) ==> NotAfter(p, q)
  }

  ghost predicate LeadsNowhere(t: Node, names: seq<string>) {
    forall q, n :: !Leads(t, q, names, n)
  }

  lemma NoChildLeads(t: Node, names: seq<string>)
    requires |names| != 1
    requires forall i :: 0 <= i < |t.children| && |names| > 0 ==> LeadsNowhere(t.children[i], names[1..])
    ensures LeadsNowhere(t, names)
  {
    forall q, n ensures !Leads(t, q, names, n) {
      if Leads(t, q, names, n) {
        assert LeadsNowhere(t.children[q[0]], names[1..]);
      }
    }
  }

  lemma FirstChild(t: Node, names: seq<string>, i: nat, rest: seq<nat>, found: Node)
    requires |names| > 1 && t.name == names[0] && i < |t.children| && Leads(t.children[i], rest, names[1..], found)
    requires forall j :: 0 <= j < i ==> LeadsNowhere(t.children[j], names[1..])
    requires forall q, n :: Leads(t.children[i], q, names[1..], n) ==> NotAfter(rest, q)
    ensures Leads(t, [i] + rest, names, found)
    ensures forall q, n :: Leads(t, q, names, n) ==> NotAfter([i] + rest, q)
  {
    var p := [i] + rest;
    assert p[0] == i && p[1..] == rest;
    forall q, n | Leads(t, q, names, n) ensures NotAfter(p, q) {
      assert Leads(t.children[q[0]], q[1..], names[1..], n);
      assert LeadsNowhere(t.children[q[0]], names[1..]) ==> false;
    }
  }

  /** getByPath finds a node if and only if some chain of nodes has the given names; of several chains it
      follows the one that comes first. */
  method GetByPath(t: Node, names: seq<string>) returns (r: Option<Node>, ghost p: seq<nat>)
    ensures r.None? ==> LeadsNowhere(t, names)
    ensures r.Some? ==> LeadsFirst(t, p, names, r.value)
    decreases |names|
  {
    p := [];
    if names == [] || t.name != names[0] {
      return None, [];
    }
    if |names| == 1 {
      return Some(t), [];
    }
    for i := 0 to |t.children|
      invariant forall j :: 0 <= j < i ==> LeadsNowhere(t.children[j], names[1..])
    {
      ghost var rest: seq<nat>;
      r, rest := GetByPath(t.children[i], names[1..]);
      if r.Some? {
        p := [i] + rest;
        FirstChild(t, names, i, rest, r.value);
        return r, p;
      }
    }
    NoChildLeads(t, names);
    return None, [];
  }

  function SplitPath(path: string): (names: seq<string>) {
    if path == "/" then ["root"] else SplitOn(path, '/')[0 := "root"]
  }

  /** The path "/a/b" asks for the chain root, a, b. The first component is ignored, whatever it is. */
  lemma SplitPathOf(first: string, names: seq<string>)
    requires '/' !in first && forall s :: s in names ==> '/' !in s
    requires first != "" || names != [""]
    ensures SplitPath(Join([first] + names, '/')) == ["root"] + names
    ensures SplitPath("/") == ["root"]
  {
    SplitJoin([first] + names, '/');
    var path := Join([first] + names, '/');
    assert SplitOn("/", '/') == ["", ""] by { assert SplitOn(['/'][1..], '/') == [""]; }
    assert names == ([first] + names)[1..] && first == ([first] + names)[0];
    assert path == "/" ==> [first] + names == ["", ""];
  }

  method GetNodeFromRootByPath(root: Node, path: string) returns (r: Option<Node>)
    ensures r.None? ==> LeadsNowhere(root, SplitPath(path))
    ensures r.Some? ==> exists p :: LeadsFirst(root, p, SplitPath(path), r.value)
  {
    ghost var p;
    r, p := GetByPath(root, SplitPath(path));
    assert r.Some? ==> LeadsFirst(root, p, SplitPath(path), r.value);
  }

  // ---------- Sizes ----------

  function Total(t: Node): int
    decreases t, 0
  {
    if t.url != "" then t.size else TotalAll(t.children)
  }

  function TotalAll(ts: seq<Node>): int
    decreases ts, 1
  {
    if ts == [] then 0 else TotalAll(ts[..|ts| - 1]) + Total(ts[|ts| - 1])
  }

  /** `u` is `t` with the size of each folder set to its total. */
  ghost predicate Sized(t: Node, u: Node)
    decreases t
  {
    && u == t.(size := Total(t), children := u.children)
    && |u.children| == |t.children|
    && if t.url != "" then u == t
      else forall i :: 0 <= i < |t.children| ==> Sized(t.children[i], u.children[i])
  }

  /** calSize writes the total of every folder into the tree and changes nothing else. */
  method CalSize(t: Node) returns (size: int, u: Node)
    ensures size == Total(t) && Sized(t, u)
    decreases t
  {
    if t.url != "" {
      return t.size, t;
    }
    size := 0;
    var children := [];
    for i := 0 to |t.children|
      invariant size == TotalAll(t.children[..i]) && |children| == i
      invariant forall j :: 0 <= j < i ==> Sized(t.children[j], children[j])
    {
      var s, c := CalSize(t.children[i]);
      assert t.children[..i + 1][..i] == t.children[..i];
      size, children := size + s, children + [c];
    }
    assert t.children[..|t.children|] == t.children;
    u := t.(size := size, children := children);
  }

  /** The sizes of the file nodes in a preorder. */
  ghost function FileSizes(f: seq<Entry>): int {
    if f == [] then 0
    else FileSizes(f[..|f| - 1]) + if f[|f| - 1].node.url != "" then f[|f| - 1].node.size else 0
  }

  lemma {:induction false} FileSizesConcat(f: seq<Entry>, g: seq<Entry>)
    ensures FileSizes(f + g) == FileSizes(f) + FileSizes(g)
  {
    if g == [] {
      assert f + g == f;
    } else {
      assert (f + g)[..|f + g| - 1] == f + g[..|g| - 1];
      FileSizesConcat(f, g[..|g| - 1]);
    }
  }

  ghost predicate LeafFiles(t: Node) {
    (t.url != "" ==> t.children == []) && forall i :: 0 <= i < |t.children| ==> LeafFiles(t.children[i])
  }

  /** The total of a folder is the sum of the sizes of all files below it, at any depth. */
  lemma {:induction false} TotalIsSum(t: Node, at: nat, parent: int)
    requires LeafFiles(t)
    ensures Total(t) == FileSizes(Flat(t, at, parent))
    decreases t, 0
  {
    var head := [Entry(t.(children := []), parent)];
    FileSizesConcat(head, FlatAll(t.children, at + 1, at));
    assert head[..0] == [];
    assert FileSizes(head) == if t.url != "" then t.size else 0;
    TotalAllIsSum(t.children, at + 1, at);
  }

  lemma {:induction false} TotalAllIsSum(ts: seq<Node>, at: nat, parent: int)
    requires forall i :: 0 <= i < |ts| ==> LeafFiles(ts[i])
    ensures TotalAll(ts) == FileSizes(FlatAll(ts, at, parent))
    decreases ts, 1
  {
    if ts != [] {
      var before, last := ts[..|ts| - 1], ts[|ts| - 1];
      var f := FlatAll(before, at, parent);
      TotalAllIsSum(before, at, parent);
      TotalIsSum(last, at + |f|, parent);
      FileSizesConcat(f, Flat(last, at + |f|, parent));
    }
  }

  // ---------- Built trees ----------

  /** The open nodes are folders. */
  ghost predicate OpenFolders(t: Node, d: nat)
    decreases d
  {
    t.url == "" && (d > 0 ==> t.children != [] && OpenFolders(t.children[|t.children| - 1], d - 1))
  }

  lemma {:induction false} OpenPrefix(t: Node, d: nat, e: nat)
    requires OpenFolders(t, e) && d <= e
    ensures OpenFolders(t, d)
    decreases d
  {
    if d > 0 {
      OpenPrefix(t.children[|t.children| - 1], d - 1, e - 1);
    }
  }

  lemma {:induction false} AppendKeepsLeafFiles(t: Node, d: nat, c: Node)
    requires HasSpine(t, d) && OpenFolders(t, d) && LeafFiles(t) && LeafFiles(c)
    ensures LeafFiles(AppendAt(t, d, c)) && OpenFolders(AppendAt(t, d, c), d)
    ensures c.url == "" ==> OpenFolders(AppendAt(t, d, c), d + 1)
    decreases d
  {
    if d > 0 {
      AppendKeepsLeafFiles(t.children[|t.children| - 1], d - 1, c);
    }
  }

  lemma {:induction false} RunKeepsLeafFiles(b: Build, ls: seq<Line>)
    requires Valid(b) && Malformed !in ls && LeafFiles(b.root) && OpenFolders(b.root, |b.stack| - 1)
    ensures LeafFiles(Run(b, ls).root)
    decreases |ls|
  {
    if ls != [] {
      var l := ls[0];
      if !l.Blank? {
        var m := |Pop(b.stack, l.level)|;
        SpinePrefix(b.root, m - 1, |b.stack| - 1);
        OpenPrefix(b.root, m - 1, |b.stack| - 1);
        AppendKeepsLeafFiles(b.root, m - 1, Leaf(l));
        hide AppendAt, HasSpine, OpenFolders, LeafFiles, Pop;
      }
      RunKeepsLeafFiles(Step(b, l), ls[1..]);
    }
  }

  /** The sizes on the file lines of the text. */
  function LineSizes(items: seq<Line>): int {
    if items == [] then 0
    else LineSizes(items[..|items| - 1]) + if items[|items| - 1].File? then items[|items| - 1].info.size else 0
  }

  lemma {:induction false} EntrySizes(f: seq<Entry>, items: seq<Line>)
    requires |f| == |items| + 1 && f[0].node == ROOT && AllItems(items)
    requires forall i: nat :: i < |items| ==> f[i + 1].node == Leaf(items[i])
    ensures FileSizes(f) == LineSizes(items)
    decreases |f|
  {
    if items == [] {
      assert f[..0] == [];
    } else {
      EntrySizes(f[..|f| - 1], items[..|items| - 1]);
      var last := items[|items| - 1];
      assert f[|f| - 1].node == Leaf(last);
    }
  }

  /** The size of the root is the sum of the sizes on all file lines of the text. */
  lemma RootTotal(text: string, files: FileLines)
    requires Malformed !in Lines(text, files)
    ensures LeafFiles(Run(EMPTY, Lines(text, files)).root)
    ensures Total(Run(EMPTY, Lines(text, files)).root) == LineSizes(Items(Lines(text, files)))
  {
    var ls := Lines(text, files);
    TreeShape(text, files);
    RunKeepsLeafFiles(EMPTY, ls);
    hide Run, Items, Flat, FlatAll, Total;
    var root := Run(EMPTY, ls).root;
    TotalIsSum(root, 0, -1);
    EntrySizes(Flat(root, 0, -1), Items(ls));
  }
}
