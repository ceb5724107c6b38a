/** What tree BuildTree builds: its preorder is the sequence of lines, and each node hangs under the nearest
    preceding folder that no line in between has closed. */
module IndentTreeShape {
  import opened Options
  import opened TextLines
  import opened IndentTree

  /** A node without its children, and the preorder position of its parent. */
  datatype Entry = Entry(node: Node, parent: int)

  /** The preorder of a tree whose root has position `at`. A tree is determined by it. */
  ghost function Flat(t: Node, at: nat, parent: int): (f: seq<Entry>)
    ensures |f| >= 1
    decreases t, 0
  {
    [Entry(t.(children := []), parent)] + FlatAll(t.children, at + 1, at)
  }

  ghost function FlatAll(ts: seq<Node>, at: nat, parent: int): seq<Entry>
    decreases ts, 1
  {
    if ts == [] then []
    else
      var before := FlatAll(ts[..|ts| - 1], at, parent);
      before + Flat(ts[|ts| - 1], at + |before|, parent)
  }

  // ---------- Parents ----------

  /** The folder and file lines. */
  function Items(ls: seq<Line>): (items: seq<Line>)
    ensures AllItems(items)
  {
    if ls == [] then []
    else Items(ls[..|ls| - 1]) + if ls[|ls| - 1].Folder? || ls[|ls| - 1].File? then [ls[|ls| - 1]] else []
  }

  predicate AllItems(items: seq<Line>) {
    forall i :: 0 <= i < |items| ==> items[i].Folder? || items[i].File?
  }

  /** Folder `j` encloses item `i`: every line after it up to `i` is deeper. */
  ghost predicate Encloses(items: seq<Line>, j: int, i: nat)
    requires i < |items| && AllItems(items)
  {
    0 <= j < i && items[j].Folder? && forall k :: j < k <= i ==> items[k].level > items[j].level
  }

  /** The parent of item `i`: the nearest enclosing folder, or the root (-1). */
  ghost predicate IsParent(items: seq<Line>, i: nat, j: int)
    requires i < |items| && AllItems(items)
  {
    if j == -1 then forall k :: !Encloses(items, k, i)
    else Encloses(items, j, i) && forall k :: j < k < i ==> !Encloses(items, k, i)
  }

  /** `f` is the preorder of a tree with the root and the items as its nodes, each under its parent. */
  ghost predicate Describes(f: seq<Entry>, items: seq<Line>) {
    && AllItems(items) && |f| == |items| + 1 && f[0] == Entry(ROOT, -1)
    && forall i: nat :: i < |items| ==> f[i + 1] == Entry(Leaf(items[i]), Parent(items, i) + 1)
  }

  predicate Shallower(level: nat, bound: Option<nat>) {
    bound.None? || level < bound.value
  }

  /** Going back from item `j`, the first folder that is shallower than the bound and than all lines passed. */
  function Scan(items: seq<Line>, j: int, bound: Option<nat>): (t: int)
    requires j < |items| && AllItems(items)
    ensures t == -1 || (0 <= t <= j && items[t].Folder? && Shallower(items[t].level, bound))
    decreases if j < 0 then 0 else j + 1
  {
    if j < 0 then -1
    else if !Shallower(items[j].level, bound) then Scan(items, j - 1, bound)
    else if items[j].Folder? then j
    else Scan(items, j - 1, Some(items[j].level))
  }

  function Parent(items: seq<Line>, i: nat): int
    requires i < |items| && AllItems(items)
  {
    Scan(items, i - 1, Some(items[i].level))
  }

  ghost predicate Qualifies(items: seq<Line>, k: int, j: int, bound: Option<nat>)
    requires j < |items| && AllItems(items)
  {
    0 <= k <= j && items[k].Folder? && Shallower(items[k].level, bound) && forall x :: k < x <= j ==>
      items[x].level > items[k].level
  }

  lemma {:induction false} ScanFinds(items: seq<Line>, j: int, bound: Option<nat>)
    requires j < |items| && AllItems(items)
    ensures var t := Scan(items, j, bound);
      && (t != -1 ==> Qualifies(items, t, j, bound))
      && forall k :: t < k ==> !Qualifies(items, k, j, bound)
    decreases if j < 0 then 0 else j + 1
  {
    if j >= 0 {
      var next := if Shallower(items[j].level, bound) then Some(items[j].level) else bound;
      ScanFinds(items, j - 1, next);
      forall k | 0 <= k < j ensures Qualifies(items, k, j, bound) ==> Qualifies(items, k, j - 1, next) {
        if Qualifies(items, k, j, bound) {
          assert items[j].level > items[k].level;
        }
      }
    }
  }

  /** `Parent` computes the nearest enclosing folder. */
  lemma ParentIsNearest(items: seq<Line>, i: nat)
    requires i < |items| && AllItems(items)
    ensures IsParent(items, i, Parent(items, i))
  {
    ScanFinds(items, i - 1, Some(items[i].level));
    forall k ensures Encloses(items, k, i) == Qualifies(items, k, i - 1, Some(items[i].level)) {
    }
  }

  // ---------- The stack as a chain of scans ----------

  /** The stack holds the folders met going back from item `j`, each shallower than the one before. */
  ghost predicate IsChain(items: seq<Line>, j: int, bound: Option<nat>, stack: seq<int>, ids: seq<int>)
    requires j < |items| && AllItems(items)
    decreases |ids|
  {
    && |ids| == |stack| > 0
    && var t, n := Scan(items, j, bound), |ids| - 1;
      && ids[n] == t
      && if n == 0 then t == -1 && stack == [-1]
         else t >= 0 && stack[n] == items[t].level && IsChain(items, t - 1, Some(items[t].level), stack[..n], ids[..n])
  }

  /** A lower bound only skips the folders it excludes. */
  lemma {:induction false} ScanLower(items: seq<Line>, j: int, bound: Option<nat>, level: nat)
    requires j < |items| && AllItems(items) && (bound.Some? ==> level <= bound.value)
    ensures var t := Scan(items, j, bound);
      Scan(items, j, Some(level)) ==
        if t == -1 then -1 else if items[t].level < level then t else Scan(items, t - 1, Some(level))
    decreases if j < 0 then 0 else j + 1
  {
    if j >= 0 {
      if !Shallower(items[j].level, bound) {
        ScanLower(items, j - 1, bound, level);
      } else if !items[j].Folder? {
        var next := items[j].level;
        if level <= next {
          ScanLower(items, j - 1, Some(next), level);
        }
      }
    }
  }

  lemma {:induction false} PopChain(items: seq<Line>, j: int, bound: Option<nat>, stack: seq<int>, ids: seq<int>,
      level: nat)
    requires j < |items| && AllItems(items) && (bound.Some? ==> level <= bound.value)
    requires IsChain(items, j, bound, stack, ids)
    ensures stack[0] == -1
    ensures var m := |Pop(stack, level)|;
      m <= |ids| && Pop(stack, level) == stack[..m] && IsChain(items, j, Some(level), stack[..m], ids[..m])
    decreases |ids|
  {
    var t, n := Scan(items, j, bound), |ids| - 1;
    ScanLower(items, j, bound, level);
    if n == 0 {
      assert stack[..1] == stack && ids[..1] == ids;
    } else if items[t].level < level {
      ChainBottom(items, t - 1, Some(items[t].level), stack[..n], ids[..n]);
      assert stack[..n + 1] == stack && ids[..n + 1] == ids;
    } else {
      PopChain(items, t - 1, Some(items[t].level), stack[..n], ids[..n], level);
      var m := |Pop(stack[..n], level)|;
      assert stack[..n][..m] == stack[..m] && ids[..n][..m] == ids[..m];
      ChainMoves(items, j, t - 1, Some(level), stack[..m], ids[..m]);
    }
  }

  lemma {:induction false} ChainBottom(items: seq<Line>, j: int, bound: Option<nat>, stack: seq<int>, ids: seq<int>)
    requires j < |items| && AllItems(items) && IsChain(items, j, bound, stack, ids)
    ensures stack[0] == -1
    decreases |ids|
  {
    var t, n := Scan(items, j, bound), |ids| - 1;
    if n > 0 {
      ChainBottom(items, t - 1, Some(items[t].level), stack[..n], ids[..n]);
    }
  }

  lemma ChainTop(items: seq<Line>, j: int, bound: Option<nat>, stack: seq<int>, ids: seq<int>)
    requires j < |items| && AllItems(items) && IsChain(items, j, bound, stack, ids)
    ensures |ids| == |stack| > 0 && ids[|ids| - 1] == Scan(items, j, bound)
  {
  }

  lemma ChainMoves(items: seq<Line>, j: int, j': int, bound: Option<nat>, stack: seq<int>, ids: seq<int>)
    requires j < |items| && j' < |items| && AllItems(items)
    requires IsChain(items, j', bound, stack, ids) && Scan(items, j, bound) == Scan(items, j', bound)
    ensures IsChain(items, j, bound, stack, ids)
  {
  }

  lemma {:induction false} ScanPrefix(items: seq<Line>, l: Line, j: int, bound: Option<nat>)
    requires j < |items| && AllItems(items) && AllItems(items + [l])
    ensures Scan(items + [l], j, bound) == Scan(items, j, bound)
    decreases if j < 0 then 0 else j + 1
  {
    if j >= 0 {
      assert (items + [l])[j] == items[j];
      ScanPrefix(items, l, j - 1, if Shallower(items[j].level, bound) then Some(items[j].level) else bound);
    }
  }

  lemma {:induction false} ChainPrefix(items: seq<Line>, l: Line, j: int, bound: Option<nat>, stack: seq<int>,
      ids: seq<int>)
    requires j < |items| && AllItems(items) && AllItems(items + [l]) && IsChain(items, j, bound, stack, ids)
    ensures IsChain(items + [l], j, bound, stack, ids)
    decreases |ids|
  {
    var t, n := Scan(items, j, bound), |ids| - 1;
    ScanPrefix(items, l, j, bound);
    if n > 0 {
      assert (items + [l])[t] == items[t];
      ChainPrefix(items, l, t - 1, Some(items[t].level), stack[..n], ids[..n]);
    }
  }

  function NextStack(stack: seq<int>, l: Line): seq<int>
    requires stack != [] && stack[0] < 0 && (l.Folder? || l.File?)
  {
    if l.Folder? then Pop(stack, l.level) + [l.level as int] else Pop(stack, l.level)
  }

  function NextIds(ids: seq<int>, m: nat, n: nat, l: Line): seq<int>
    requires m <= |ids|
  {
    if l.Folder? then ids[..m] + [n] else ids[..m]
  }

  lemma ChainPush(items: seq<Line>, n: nat, stack: seq<int>, ids: seq<int>)
    requires n < |items| && AllItems(items)
    requires IsChain(items, n - 1, Some(items[n].level), stack, ids)
    ensures items[n].Folder? ==> IsChain(items, n, None, stack + [items[n].level], ids + [n])
    ensures items[n].File? ==> IsChain(items, n, None, stack, ids)
  {
    var k := |ids|;
    assert (stack + [items[n].level as int])[..k] == stack && (ids + [n])[..k] == ids;
  }

  lemma ChainGrows(items: seq<Line>, stack: seq<int>, ids: seq<int>, l: Line)
    requires AllItems(items) && (l.Folder? || l.File?) && IsChain(items, |items| - 1, Some(l.level), stack, ids)
    ensures AllItems(items + [l]) && ids != [] && ids[|ids| - 1] == Parent(items + [l], |items|)
    ensures IsChain(items + [l], |items|, None, if l.Folder? then stack + [l.level as int] else stack,
      if l.Folder? then ids + [|items|] else ids)
  {
    var more, n := items + [l], |items|;
    assert more[n] == l && AllItems(more);
    hide IsChain, Scan, AllItems;
    ChainPrefix(items, l, n - 1, Some(l.level), stack, ids);
    ChainTop(more, n - 1, Some(l.level), stack, ids);
    ChainPush(more, n, stack, ids);
  }

  /** One more item: the top of the popped stack is its parent, and the stack is again the chain of scans. */
  lemma ChainStep(items: seq<Line>, stack: seq<int>, ids: seq<int>, l: Line, m: nat)
    requires AllItems(items) && (l.Folder? || l.File?) && IsChain(items, |items| - 1, None, stack, ids)
    requires stack != [] && stack[0] == -1 && m == |Pop(stack, l.level)|
    ensures AllItems(items + [l]) && 1 <= m <= |ids| && ids[m - 1] == Parent(items + [l], |items|)
    ensures IsChain(items + [l], |items|, None, NextStack(stack, l), NextIds(ids, m, |items|, l))
  {
    hide IsChain, Pop, Parent, AllItems;
    PopChain(items, |items| - 1, None, stack, ids, l.level);
    ChainGrows(items, stack[..m], ids[..m], l);
  }

  // ---------- The tree ----------

  /** The open nodes stand in the preorder where their items say. */
  ghost predicate Placed(t: Node, at: nat, ids: seq<int>)
    decreases |ids|
  {
    && ids != [] && at == ids[0] + 1
    && (|ids| > 1 ==>
      var n := |t.children|;
      n > 0 && Placed(t.children[n - 1], at + 1 + |FlatAll(t.children[..n - 1], at + 1, at)|, ids[1..]))
  }

  lemma {:induction false} FlatAllSnoc(ts: seq<Node>, t: Node, at: nat, parent: int)
    ensures FlatAll(ts + [t], at, parent) == FlatAll(ts, at, parent) + Flat(t, at + |FlatAll(ts, at, parent)|, parent)
  {
    assert (ts + [t])[..|ts|] == ts;
  }

  lemma {:induction false} FlatLeaf(c: Node, at: nat, parent: int)
    requires c.children == []
    ensures Flat(c, at, parent) == [Entry(c, parent)]
  {
  }

  /** The preorder of a tree ends with the preorder of its last child. */
  lemma {:induction false} FlatLast(t: Node, at: nat, parent: int)
    requires t.children != []
    ensures var n := |t.children|;
      var before := FlatAll(t.children[..n - 1], at + 1, at);
      Flat(t, at, parent) == [Entry(t.(children := []), parent)] + before +
        Flat(t.children[n - 1], at + 1 + |before|, at)
  {
  }

  lemma AppendedChildren(t: Node, d: nat, c: Node)
    requires HasSpine(t, d)
    ensures var r, n := AppendAt(t, d, c), |t.children|;
      if d == 0 then r.children == t.children + [c]
      else
        && n > 0 && r.children == t.children[..n - 1] + [AppendAt(t.children[n - 1], d - 1, c)]
        && r.children[..n - 1] == t.children[..n - 1]
    ensures AppendAt(t, d, c).(children := []) == t.(children := [])
  {
  }

  /** Appending a leaf to open node `d` appends it to the preorder, because open nodes have nothing behind them. */
  lemma {:induction false} FlatAppend(t: Node, d: nat, c: Node, at: nat, parent: int, ids: seq<int>)
    requires HasSpine(t, d) && c.children == [] && d < |ids| && Placed(t, at, ids)
    ensures Flat(AppendAt(t, d, c), at, parent) == Flat(t, at, parent) + [Entry(c, ids[d] + 1)]
    decreases d
  {
    var n := |t.children|;
    AppendedChildren(t, d, c);
    if d == 0 {
      FlatAllSnoc(t.children, c, at + 1, at);
      FlatLeaf(c, at + 1 + |FlatAll(t.children, at + 1, at)|, at);
    } else {
      var before := FlatAll(t.children[..n - 1], at + 1, at);
      FlatAppend(t.children[n - 1], d - 1, c, at + 1 + |before|, at, ids[1..]);
      FlatLast(t, at, parent);
      FlatLast(AppendAt(t, d, c), at, parent);
      hide Flat, FlatAll, AppendAt, Placed;
      var head, tail := [Entry(t.(children := []), parent)] + before, Flat(t.children[n - 1], at + 1 + |before|, at);
      assert head + (tail + [Entry(c, ids[d] + 1)]) == head + tail + [Entry(c, ids[d] + 1)];
    }
  }

  lemma PlacedCons(t: Node, at: nat, ids: seq<int>, rest: seq<int>)
    requires ids == [at - 1] + rest
    requires rest != [] ==>
      var n := |t.children|;
      n > 0 && Placed(t.children[n - 1], at + 1 + |FlatAll(t.children[..n - 1], at + 1, at)|, rest)
    ensures Placed(t, at, ids)
  {
    assert ids[1..] == rest;
  }

  lemma {:induction false} FlatLength(t: Node, at: nat, parent: int)
    ensures |Flat(t, at, parent)| == 1 + |FlatAll(t.children, at + 1, at)|
  {
  }

  lemma PlacedLeaf(r: Node, before: seq<Node>, c: Node, at: nat)
    requires r.children == before + [c]
    ensures Placed(r, at, [at - 1])
    ensures Placed(r, at, [at - 1] + [at + |FlatAll(before, at + 1, at)|])
  {
    var leaf := at + |FlatAll(before, at + 1, at)|;
    assert r.children[..|before|] == before && r.children[|before|] == c;
    assert [leaf] == [leaf] + [] && [at - 1] == [at - 1] + [];
    hide FlatAll;
    PlacedCons(c, leaf + 1, [leaf], []);
    PlacedCons(r, at, [at - 1], []);
    PlacedCons(r, at, [at - 1] + [leaf], [leaf]);
  }

  /** Where the last child of a tree stands in its preorder. */
  ghost function Below(t: Node, at: nat): nat
    requires t.children != []
  {
    at + 1 + |FlatAll(t.children[..|t.children| - 1], at + 1, at)|
  }

  lemma PlacedDeeper(r: Node, last: Node, below: nat, d: nat, at: nat, ids: seq<int>, leaf: int)
    requires 0 < d < |ids| && ids[0] == at - 1
    requires r.children != [] && last == r.children[|r.children| - 1] && below == Below(r, at)
    requires Placed(last, below, ids[1..][..d]) && Placed(last, below, ids[1..][..d] + [leaf])
    ensures Placed(r, at, ids[..d + 1]) && Placed(r, at, ids[..d + 1] + [leaf])
  {
    hide FlatAll, Placed;
    assert ids[..d + 1] == [at - 1] + ids[1..][..d];
    assert ids[..d + 1] + [leaf] == [at - 1] + (ids[1..][..d] + [leaf]);
    PlacedCons(r, at, ids[..d + 1], ids[1..][..d]);
    PlacedCons(r, at, ids[..d + 1] + [leaf], ids[1..][..d] + [leaf]);
  }

  lemma SpineBelow(t: Node, d: nat)
    requires HasSpine(t, d) && d > 0
    ensures t.children != [] && HasSpine(t.children[|t.children| - 1], d - 1)
  {
  }

  lemma PlacedBelow(t: Node, at: nat, ids: seq<int>)
    requires Placed(t, at, ids)
    ensures ids != [] && ids[0] == at - 1
    ensures |ids| > 1 ==> t.children != [] && Placed(t.children[|t.children| - 1], Below(t, at), ids[1..])
  {
  }

  lemma PlacedTop(t: Node, c: Node, at: nat, parent: int, ids: seq<int>)
    requires c.children == [] && Placed(t, at, ids)
    ensures Placed(AppendAt(t, 0, c), at, ids[..1])
    ensures Placed(AppendAt(t, 0, c), at, ids[..1] + [at + |Flat(t, at, parent)| - 1])
  {
    AppendedChildren(t, 0, c);
    PlacedBelow(t, at, ids);
    FlatLength(t, at, parent);
    assert ids[..1] == [at - 1];
    hide Flat, FlatAll, AppendAt, Placed;
    PlacedLeaf(AppendAt(t, 0, c), t.children, c, at);
  }

  /** Appending below the last child moves none of the others. */
  lemma BelowAppended(t: Node, d: nat, c: Node, at: nat)
    requires HasSpine(t, d) && d > 0
    ensures var r := AppendAt(t, d, c);
      t.children != [] && r.children != [] && HasSpine(t.children[|t.children| - 1], d - 1)
    ensures AppendAt(t, d, c).children[|AppendAt(t, d, c).children| - 1] ==
      AppendAt(t.children[|t.children| - 1], d - 1, c)
    ensures Below(AppendAt(t, d, c), at) == Below(t, at)
  {
    AppendedChildren(t, d, c);
    SpineBelow(t, d);
    hide FlatAll;
  }

  lemma FlatEnds(t: Node, at: nat, parent: int)
    requires t.children != []
    ensures at + |Flat(t, at, parent)| == Below(t, at) + |Flat(t.children[|t.children| - 1], Below(t, at), at)|
  {
    hide Flat, FlatAll, HasSpine;
    FlatLast(t, at, parent);
  }

  /** The leaf then is the last open node, and the nodes above it are where they were. */
  lemma {:induction false} PlacedAppend(t: Node, d: nat, c: Node, at: nat, parent: int, ids: seq<int>)
    requires HasSpine(t, d) && c.children == [] && d < |ids| && Placed(t, at, ids)
    ensures Placed(AppendAt(t, d, c), at, ids[..d + 1])
    ensures Placed(AppendAt(t, d, c), at, ids[..d + 1] + [at + |Flat(t, at, parent)| - 1])
    decreases d
  {
    hide Flat, FlatAll, AppendAt, Placed, HasSpine, Below;
    if d == 0 {
      PlacedTop(t, c, at, parent, ids);
    } else {
      BelowAppended(t, d, c, at);
      PlacedBelow(t, at, ids);
      FlatEnds(t, at, parent);
      var last := t.children[|t.children| - 1];
      PlacedAppend(last, d - 1, c, Below(t, at), at, ids[1..]);
      PlacedDeeper(AppendAt(t, d, c), AppendAt(last, d - 1, c), Below(t, at), d, at, ids,
        at + |Flat(t, at, parent)| - 1);
    }
  }

  lemma DescribesStep(f: seq<Entry>, items: seq<Line>, l: Line)
    requires Describes(f, items) && (l.Folder? || l.File?)
    ensures AllItems(items + [l])
    ensures Describes(f + [Entry(Leaf(l), Parent(items + [l], |items|) + 1)], items + [l])
  {
    var more := items + [l];
    forall i: nat | i < |items| ensures more[i] == items[i] && Parent(more, i) == Parent(items, i) {
      ScanPrefix(items, l, i - 1, Some(items[i].level));
    }
  }

  lemma ItemsSnoc(ls: seq<Line>, l: Line)
    ensures Items(ls + [l]) == Items(ls) + if l.Folder? || l.File? then [l] else []
  {
    assert (ls + [l])[..|ls|] == ls;
  }

  /** What holds of the tree and the stack after the items: `ids` names the item of each open node. */
  ghost predicate Shaped(b: Build, items: seq<Line>, ids: seq<int>) {
    && Valid(b) && AllItems(items) && IsChain(items, |items| - 1, None, b.stack, ids)
    && Placed(b.root, 0, ids) && Describes(Flat(b.root, 0, -1), items)
  }

  lemma StepIs(b: Build, l: Line)
    requires Valid(b) && (l.Folder? || l.File?)
    ensures var m := |Pop(b.stack, l.level)|;
      && HasSpine(b.root, m - 1)
      && Step(b, l) == Build(AppendAt(b.root, m - 1, Leaf(l)), NextStack(b.stack, l))
  {
    SpinePrefix(b.root, |Pop(b.stack, l.level)| - 1, |b.stack| - 1);
  }

  lemma ShapeStep(b: Build, items: seq<Line>, ids: seq<int>, l: Line) returns (ids': seq<int>)
    requires Shaped(b, items, ids) && (l.Folder? || l.File?)
    ensures Shaped(Step(b, l), items + [l], ids')
  {
    hide Flat, FlatAll, IsChain, Step, AppendAt, Placed, Scan, Pop, HasSpine, Parent;
    var n := |items|;
    assert |Flat(b.root, 0, -1)| == n + 1;
    hide Describes;
    var m := |Pop(b.stack, l.level)|;
    ChainStep(items, b.stack, ids, l, m);
    ids' := NextIds(ids, m, n, l);
    StepIs(b, l);
    FlatAppend(b.root, m - 1, Leaf(l), 0, -1, ids);
    PlacedAppend(b.root, m - 1, Leaf(l), 0, -1, ids);
    DescribesStep(Flat(b.root, 0, -1), items, l);
  }

  lemma {:induction false} RunShape(ls: seq<Line>) returns (ids: seq<int>)
    requires Malformed !in ls
    ensures Shaped(Run(EMPTY, ls), Items(ls), ids)
  {
    if ls == [] {
      ids := [-1];
      assert Flat(ROOT, 0, -1) == [Entry(ROOT, -1)];
    } else {
      var before, l := ls[..|ls| - 1], ls[|ls| - 1];
      assert ls == before + [l];
      ids := RunShape(before);
      RunSnoc(EMPTY, before, l);
      ItemsSnoc(before, l);
      hide Shaped, Run, Step;
      if l.Blank? {
        assert Items(before) + [] == Items(before);
      } else {
        ids := ShapeStep(Run(EMPTY, before), Items(before), ids, l);
      }
    }
  }

  /** The tree of any accepted text: its preorder is the root followed by the non-blank lines, in order, and
      every node hangs under the nearest preceding folder that encloses it. */
  lemma TreeShape(text: string, files: FileLines)
    requires Malformed !in Lines(text, files)
    ensures var items := Items(Lines(text, files));
      var f := Flat(Run(EMPTY, Lines(text, files)).root, 0, -1);
      && |f| == |items| + 1 && f[0] == Entry(ROOT, -1)
      && forall i: nat :: i < |items| ==> f[i + 1].node == Leaf(items[i]) && IsParent(items, i, f[i + 1].parent - 1)
  {
    var ids := RunShape(Lines(text, files));
    var items := Items(Lines(text, files));
    forall i: nat | i < |items| ensures IsParent(items, i, Parent(items, i)) {
      ParentIsNearest(items, i);
    }
  }

  /** What a line says of its node: half the indent is the level, a text with a colon at the end is the name of a
      folder, and any other text is a file line with its own fields. */
  ghost predicate IsNodeOf(node: Node, line: string, files: FileLines) {
    var indent := Indent(line);
    var text := TrimSpace(line[indent..]);
    && 2 * node.level == indent && text != "" && node.children == []
    && if text[|text| - 1] == ':' then node.url == "" && node.name + ":" == text && node.size == node.modified == 0
      else
        && text in files
        && node.url == files[text].url && node.name == files[text].name
        && node.size == files[text].size && node.modified == files[text].modified
  }

  lemma LeafIsNodeOf(line: string, files: FileLines)
    requires Classify(line, files).Folder? || Classify(line, files).File?
    ensures IsNodeOf(Leaf(Classify(line, files)), line, files)
  {
    hide Indent, TrimSpace;
    var text := TrimSpace(line[Indent(line)..]);
    assert text != "" ==> text == text[..|text| - 1] + [text[|text| - 1]];
  }

  lemma {:induction false} ItemsBefore(ls: seq<Line>, k: nat)
    requires k < |ls| && (ls[k].Folder? || ls[k].File?)
    ensures |Items(ls[..k])| < |Items(ls)| && Items(ls)[|Items(ls[..k])|] == ls[k]
    decreases |ls|
  {
    var n := |ls| - 1;
    if k < n {
      ItemsBefore(ls[..n], k);
      assert ls[..n][..k] == ls[..k];
    }
  }

  /** The node of a line, in terms of its text: it is the next one of the preorder after those of the lines before. */
  lemma NodeOfLine(text: string, files: FileLines, k: nat)
    requires Malformed !in Lines(text, files) && k < |Lines(text, files)| && !Lines(text, files)[k].Blank?
    ensures var f := Flat(Run(EMPTY, Lines(text, files)).root, 0, -1);
      var i := |Items(Lines(text, files)[..k])| + 1;
      && i < |f| && k < |SplitOn(text, '\n')| && IsNodeOf(f[i].node, SplitOn(text, '\n')[k], files)
  {
    var ls, line := Lines(text, files), SplitOn(text, '\n')[k];
    assert ls[k] == Classify(line, files) && ls[k] in ls;
    TreeShape(text, files);
    LeafIsNodeOf(line, files);
    ItemsBefore(ls, k);
    hide Flat, Run, Items, Classify, Leaf, IsNodeOf, Lines;
  }

  /** A line is skipped exactly if it holds nothing but white space behind an even number of spaces; it is refused
      exactly if that number is odd or its text is neither that of a folder nor a file line. */
  lemma LinesSkipped(line: string, files: FileLines)
    ensures var indent := Indent(line);
      var text := TrimSpace(line[indent..]);
      && (Classify(line, files).Blank? <==> indent % 2 == 0 && text == "")
      && (Classify(line, files).Malformed? <==>
        indent % 2 == 1 || (text != "" && text[|text| - 1] != ':' && text !in files))
  {
    hide Indent, TrimSpace;
  }

  /** The levels in a chain stay below its bound and increase towards the top. */
  lemma {:induction false} ChainIncreases(items: seq<Line>, j: int, bound: Option<nat>, stack: seq<int>, ids: seq<int>)
    requires j < |items| && AllItems(items) && IsChain(items, j, bound, stack, ids)
    ensures forall x, y :: 0 <= x < y < |stack| ==> stack[x] < stack[y]
    ensures stack[0] == -1 && (bound.Some? ==> forall x :: 0 <= x < |stack| ==> stack[x] < bound.value)
    decreases |ids|
  {
    var t, n := Scan(items, j, bound), |ids| - 1;
    if n > 0 {
      ChainIncreases(items, t - 1, Some(items[t].level), stack[..n], ids[..n]);
      forall x, y | 0 <= x < y < |stack| ensures stack[x] < stack[y] {
        assert stack[..n][x] == stack[x] && (y < n ==> stack[..n][y] == stack[y]);
      }
      forall x | 0 <= x < |stack| ensures bound.Some? ==> stack[x] < bound.value {
        assert x < n ==> stack[..n][x] == stack[x];
      }
    }
  }

  /** After any lines: the root is at the bottom of the stack, and the levels strictly increase towards the top. */
  lemma StackIncreases(ls: seq<Line>)
    requires Malformed !in ls
    ensures var stack := Run(EMPTY, ls).stack;
      stack != [] && stack[0] == -1 && forall x, y :: 0 <= x < y < |stack| ==> stack[x] < stack[y]
  {
    var ids := RunShape(ls);
    ChainIncreases(Items(ls), |Items(ls)| - 1, None, Run(EMPTY, ls).stack, ids);
  }

  // ---------- Not simply the nearest folder of smaller level ----------

  /** `j` is the nearest folder before item `i` of smaller level. */
  ghost predicate IsNearestShallower(items: seq<Line>, i: nat, j: nat)
    requires i < |items| && AllItems(items)
  {
    && j < i && items[j].Folder? && items[j].level < items[i].level
    && forall k :: j < k < i && items[k].Folder? ==> items[k].level >= items[i].level
  }

  /** A file line closes the folders of its own level and deeper, just as a folder line does. So the nearest
      shallower folder is the parent if and only if no file line in between is at its level or shallower. */
  lemma NearestShallowerIsParent(items: seq<Line>, i: nat, j: nat)
    requires i < |items| && AllItems(items) && IsNearestShallower(items, i, j)
    ensures Parent(items, i) == j <==> forall k :: j < k < i && items[k].File? ==> items[k].level > items[j].level
  {
    ParentIsNearest(items, i);
    if forall k :: j < k < i && items[k].File? ==> items[k].level > items[j].level {
      assert Encloses(items, j, i);
    }
  }

  /** For example a folder, a file beside it, and a line indented once more: it hangs under the root. */
  lemma FileClosesFolder(f: FileInfo)
    ensures var items := [Folder(0, "a"), File(0, f), File(1, f)];
      AllItems(items) && IsNearestShallower(items, 2, 0) && Parent(items, 2) == -1
  {
    var items := [Folder(0, "a"), File(0, f), File(1, f)];
    assert Scan(items, 0, Some(0)) == -1;
    assert Scan(items, 1, Some(1)) == Scan(items, 0, Some(0));
  }
}
