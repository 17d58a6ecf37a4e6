/** Trees written as indented lines, and what the indentation determines. */
module Outline {
  import opened Options

  datatype Line = Line(depth: nat, kind: string, detail: string)

  datatype Tree = Tree(kind: string, detail: string, children: seq<Tree>)

  /** One root, and no line more than one level below the line before it. */
  ghost predicate Nested(lines: seq<Line>) {
    && (lines != [] ==> lines[0].depth == 0)
    && forall i :: 0 < i < |lines| ==> 1 <= lines[i].depth <= lines[i - 1].depth + 1
  }

  /** The last of the first `n` lines at a depth, or -1. */
  function Last(lines: seq<Line>, n: nat, depth: int): (r: int)
    requires n <= |lines|
    ensures -1 <= r < n
    ensures r >= 0 ==> lines[r].depth == depth
    ensures forall j :: 0 <= j < n && r < j ==> lines[j].depth != depth
  {
    if n == 0 then -1
    else if lines[n - 1].depth == depth then n - 1
    else Last(lines, n - 1, depth)
  }

  lemma LastIs(lines: seq<Line>, n: nat, depth: int, r: nat)
    requires n <= |lines| && r < n && lines[r].depth == depth
    requires forall j :: r < j < n ==> lines[j].depth != depth
    ensures Last(lines, n, depth) == r
  {
  }

  /** A line hangs below the last earlier line one level up. */
  function ParentOf(lines: seq<Line>, i: nat): (r: int)
    requires i < |lines|
    ensures -1 <= r < i
    ensures r >= 0 ==> lines[r].depth == lines[i].depth - 1
  {
    Last(lines, i, lines[i].depth - 1)
  }

  /** The lines of the first `n` that hang below a line, in order. */
  function ChildrenOf(lines: seq<Line>, n: nat, i: nat): (r: seq<nat>)
    requires i < n <= |lines|
    ensures forall k :: 0 <= k < |r| ==> i < r[k] < n && ParentOf(lines, r[k]) == i
    ensures forall k, m :: 0 <= k < m < |r| ==> r[k] < r[m]
    decreases n
  {
    if n == i + 1 then []
    else
      var before := ChildrenOf(lines, n - 1, i);
      if ParentOf(lines, n - 1) == i then before + [n - 1] else before
  }

  /** None is left out. */
  lemma {:induction false} ChildIn(lines: seq<Line>, n: nat, i: nat, c: nat)
    requires i < c < n <= |lines| && ParentOf(lines, c) == i
    ensures c in ChildrenOf(lines, n, i)
    decreases n
  {
    if c == n - 1 {
      var before := ChildrenOf(lines, n - 1, i);
      assert ChildrenOf(lines, n, i)[|before|] == c;
    } else {
      ChildIn(lines, n - 1, i, c);
      hide ParentOf;
    }
  }

  ghost predicate Below(cs: seq<nat>, i: nat, n: nat) {
    forall k :: 0 <= k < |cs| ==> i < cs[k] < n
  }

  /** The order a walk from a line visits the lines below it. */
  ghost function PreOrder(lines: seq<Line>, n: nat, i: nat): seq<nat>
    requires i < n <= |lines|
    decreases n - i, 1, 0
  {
    [i] + PreOrders(lines, n, ChildrenOf(lines, n, i), i)
  }

  ghost function PreOrders(lines: seq<Line>, n: nat, cs: seq<nat>, i: nat): seq<nat>
    requires i < n <= |lines| && Below(cs, i, n)
    decreases n - i, 0, |cs|
  {
    if cs == [] then [] else PreOrder(lines, n, cs[0]) + PreOrders(lines, n, cs[1..], i)
  }

  function TreeOf(lines: seq<Line>, n: nat, i: nat): Tree
    requires i < n <= |lines|
    decreases n - i, 1, 0
  {
    Tree(lines[i].kind, lines[i].detail, TreesOf(lines, n, ChildrenOf(lines, n, i), i))
  }

  function TreesOf(lines: seq<Line>, n: nat, cs: seq<nat>, ghost i: nat): seq<Tree>
    requires i < n <= |lines| && Below(cs, i, n)
    decreases n - i, 0, |cs|
  {
    if cs == [] then [] else [TreeOf(lines, n, cs[0])] + TreesOf(lines, n, cs[1..], i)
  }

  /** A tree as lines, one level of indentation per level. */
  function Print(t: Tree, depth: nat): seq<Line>
    decreases t, 0
  {
    [Line(depth, t.kind, t.detail)] + PrintAll(t.children, depth + 1)
  }

  function PrintAll(ts: seq<Tree>, depth: nat): seq<Line>
    decreases ts, 1
  {
    if ts == [] then [] else Print(ts[0], depth) + PrintAll(ts[1..], depth)
  }

  // A walk visits the lines in order.

  /** Line `n` will hang somewhere below line `i`. */
  ghost predicate Above(lines: seq<Line>, n: nat, i: nat)
    requires i < n < |lines|
  {
    lines[i].depth < lines[n].depth && Last(lines, n, lines[i].depth) == i
  }

  /** Depth grows by one at a time, so no level is skipped on the way down. */
  lemma {:induction false} Climb(lines: seq<Line>, j: nat, m: nat, depth: int) returns (x: nat)
    requires Nested(lines) && j <= m < |lines| && lines[j].depth < depth <= lines[m].depth
    ensures j < x <= m && lines[x].depth == depth
    decreases m
  {
    if lines[m].depth == depth {
      x := m;
    } else {
      x := Climb(lines, j, m - 1, depth);
    }
  }

  /** A line above the next one has every later line below it. */
  lemma AboveEncloses(lines: seq<Line>, n: nat, i: nat)
    requires Nested(lines) && i < n < |lines| && Above(lines, n, i)
    ensures forall j :: i < j < n ==> lines[j].depth > lines[i].depth
  {
    forall j | i < j < n ensures lines[j].depth > lines[i].depth {
      if lines[j].depth < lines[i].depth {
        var x := Climb(lines, j, n, lines[i].depth);
      }
    }
  }

  /** The ancestors of the next line: its parent, and the parent of each. */
  lemma AboveParent(lines: seq<Line>, n: nat, c: nat)
    requires Nested(lines) && 0 < c < n < |lines| && Above(lines, n, c)
    ensures ParentOf(lines, c) >= 0 && Above(lines, n, ParentOf(lines, c))
  {
    HasParent(lines, c);
    var i := ParentOf(lines, c);
    AboveEncloses(lines, n, c);
    LastIs(lines, n, lines[i].depth, i);
  }

  lemma HasParent(lines: seq<Line>, c: nat)
    requires Nested(lines) && 0 < c < |lines|
    ensures ParentOf(lines, c) >= 0
  {
    if lines[c].depth == 1 {
      assert lines[0].depth == 0;
    } else {
      var x := Climb(lines, 0, c - 1, lines[c].depth - 1);
    }
  }

  /** An ancestor that is not the parent has its last child for an ancestor too, and no other. */
  lemma AboveChild(lines: seq<Line>, n: nat, i: nat)
    requires Nested(lines) && i < n < |lines| && Above(lines, n, i) && lines[i].depth + 1 < lines[n].depth
    ensures var cs := ChildrenOf(lines, n, i);
            cs != [] && Above(lines, n, cs[|cs| - 1])
  {
    hide Nested, Last, ChildrenOf;
    BelowIt(lines, n, i);
    var c := Last(lines, n, lines[i].depth + 1);
    LastIs(lines, c, lines[i].depth, i);
    var cs := ChildrenOf(lines, n, i);
    ChildIn(lines, n, i, c);
    LastChild(lines, n, i, c);
  }

  /** The line after one that has lines below it is the first of them, one level down. */
  lemma BelowIt(lines: seq<Line>, n: nat, i: nat)
    requires Nested(lines) && i < n < |lines| && Above(lines, n, i) && lines[i].depth + 1 < lines[n].depth
    ensures i + 1 < n && lines[i + 1].depth == lines[i].depth + 1
    ensures forall j :: i < j < n ==> lines[j].depth > lines[i].depth
  {
    AboveEncloses(lines, n, i);
    assert lines[n].depth <= lines[n - 1].depth + 1;
  }

  lemma LastChild(lines: seq<Line>, n: nat, i: nat, c: nat)
    requires i < n <= |lines| && c in ChildrenOf(lines, n, i)
    requires forall j :: c < j < n ==> lines[j].depth != lines[c].depth
    ensures var cs := ChildrenOf(lines, n, i); cs[|cs| - 1] == c
  {
    var cs := ChildrenOf(lines, n, i);
    hide ChildrenOf;
    var k :| 0 <= k < |cs| && cs[k] == c;
    assert lines[cs[|cs| - 1]].depth == lines[i].depth + 1 == lines[c].depth;
  }

  /** Two children of one line are at one depth, so only the last can be above the next line. */
  lemma OnlyLastChild(lines: seq<Line>, n: nat, i: nat, k: nat)
    requires i < n < |lines| && k < |ChildrenOf(lines, n, i)| - 1
    ensures !Above(lines, n, ChildrenOf(lines, n, i)[k])
  {
    var cs := ChildrenOf(lines, n, i);
    assert cs[k] < cs[|cs| - 1] && lines[cs[k]].depth == lines[cs[|cs| - 1]].depth;
  }

  ghost predicate OnlyLast(lines: seq<Line>, n: nat, cs: seq<nat>, i: nat)
    requires i < n < |lines| && Below(cs, i, n)
  {
    forall k :: 0 <= k < |cs| - 1 ==> !Above(lines, n, cs[k])
  }

  ghost function Visit(lines: seq<Line>, n: nat, i: nat): seq<nat>
    requires i < n < |lines|
  {
    if Above(lines, n, i) then [n] else []
  }

  /** Which of a line's children, if any, the next line goes below. */
  lemma VisitFrom(lines: seq<Line>, n: nat, i: nat)
    requires Nested(lines) && i < n < |lines|
    ensures var cs := ChildrenOf(lines, n, i);
            && OnlyLast(lines, n, cs, i)
            && ChildrenOf(lines, n + 1, i) == cs + (if ParentOf(lines, n) == i then [n] else [])
            && (ParentOf(lines, n) == i ==> Above(lines, n, i) && (cs == [] || !Above(lines, n, cs[|cs| - 1])))
            && (ParentOf(lines, n) != i ==> (Above(lines, n, i) <==> cs != [] && Above(lines, n, cs[|cs| - 1])))
  {
    hide Nested, Last;
    var cs := ChildrenOf(lines, n, i);
    forall k | 0 <= k < |cs| - 1 ensures !Above(lines, n, cs[k]) {
      OnlyLastChild(lines, n, i, k);
    }
    if ParentOf(lines, n) != i {
      if Above(lines, n, i) {
        AboveChild(lines, n, i);
      } else if cs != [] && Above(lines, n, cs[|cs| - 1]) {
        AboveParent(lines, n, cs[|cs| - 1]);
      }
    }
  }

  /** One more line is visited last, from each of its ancestors, and changes nothing else. */
  lemma {:induction false} PreOrderGrows(lines: seq<Line>, n: nat, i: nat)
    requires Nested(lines) && i < n < |lines|
    ensures PreOrder(lines, n + 1, i) == PreOrder(lines, n, i) + Visit(lines, n, i)
    decreases n - i, 1, 0
  {
    hide Above, ChildrenOf, ParentOf, Nested, Last, OnlyLast, PreOrder, PreOrders;
    var cs := ChildrenOf(lines, n, i);
    var cs' := ChildrenOf(lines, n + 1, i);
    VisitFrom(lines, n, i);
    PreOrderUnfold(lines, n, i, cs);
    PreOrderUnfold(lines, n + 1, i, cs');
    PreOrdersGrow(lines, n, cs, i);
    if ParentOf(lines, n) == i {
      PreOrdersSnoc(lines, n + 1, cs, n, i);
      LeafOrder(lines, n + 1, n);
    } else {
      assert cs' == cs;
    }
  }

  lemma PreOrderUnfold(lines: seq<Line>, n: nat, i: nat, cs: seq<nat>)
    requires i < n <= |lines| && cs == ChildrenOf(lines, n, i)
    ensures Below(cs, i, n) && PreOrder(lines, n, i) == [i] + PreOrders(lines, n, cs, i)
  {
  }

  lemma LeafOrder(lines: seq<Line>, n: nat, i: nat)
    requires n == i + 1 <= |lines|
    ensures PreOrder(lines, n, i) == [i]
  {
  }

  lemma {:induction false} PreOrdersGrow(lines: seq<Line>, n: nat, cs: seq<nat>, i: nat)
    requires Nested(lines) && i < n < |lines| && Below(cs, i, n) && OnlyLast(lines, n, cs, i)
    ensures PreOrders(lines, n + 1, cs, i)
         == PreOrders(lines, n, cs, i) + if cs == [] then [] else Visit(lines, n, cs[|cs| - 1])
    decreases n - i, 0, |cs|
  {
    hide Above, ChildrenOf, ParentOf, Nested, Last, PreOrder;
    if cs != [] {
      PreOrderGrows(lines, n, cs[0]);
      var rest := cs[1..];
      assert forall k :: 0 <= k < |rest| ==> rest[k] == cs[k + 1];
      PreOrdersGrow(lines, n, rest, i);
      if rest == [] {
        assert PreOrders(lines, n, rest, i) == PreOrders(lines, n + 1, rest, i);
      } else {
        var first := PreOrder(lines, n, cs[0]);
        assert Visit(lines, n, cs[0]) == [] && first + [] == first;
        Assoc(first, PreOrders(lines, n, rest, i), Visit(lines, n, cs[|cs| - 1]));
      }
    }
  }

  lemma {:induction false} PreOrdersSnoc(lines: seq<Line>, n: nat, cs: seq<nat>, c: nat, i: nat)
    requires i < c < n <= |lines| && Below(cs, i, n)
    ensures PreOrders(lines, n, cs + [c], i) == PreOrders(lines, n, cs, i) + PreOrder(lines, n, c)
    decreases |cs|
  {
    if cs == [] {
      assert (cs + [c])[1..] == [];
    } else {
      PreOrdersSnoc(lines, n, cs[1..], c, i);
      assert (cs + [c])[1..] == cs[1..] + [c];
    }
  }

  ghost function UpTo(n: nat): seq<nat> {
    seq(n, i => i)
  }

  /** A walk from the root visits every line once, in the order they were written. */
  lemma {:induction false} WalkIsLineOrder(lines: seq<Line>, n: nat)
    requires Nested(lines) && 0 < n <= |lines|
    ensures PreOrder(lines, n, 0) == UpTo(n)
  {
    if n == 1 {
      LeafOrder(lines, 1, 0);
    } else {
      LastIs(lines, n - 1, 0, 0);
      hide PreOrder, Nested, Last;
      WalkIsLineOrder(lines, n - 1);
      PreOrderGrows(lines, n - 1, 0);
    }
  }

  // Printing a parsed tree gives back its lines.

  ghost function Pluck(lines: seq<Line>, order: seq<nat>): seq<Line>
    requires forall k :: 0 <= k < |order| ==> order[k] < |lines|
  {
    seq(|order|, k requires 0 <= k < |order| => lines[order[k]])
  }

  lemma {:induction false} PrintedInOrder(lines: seq<Line>, n: nat, i: nat)
    requires i < n <= |lines|
    ensures forall k :: 0 <= k < |PreOrder(lines, n, i)| ==> PreOrder(lines, n, i)[k] < n
    ensures Print(TreeOf(lines, n, i), lines[i].depth) == Pluck(lines, PreOrder(lines, n, i))
    decreases n - i, 1, 0
  {
    hide Last, ParentOf;
    var cs := ChildrenOf(lines, n, i);
    AllPrintedInOrder(lines, n, cs, i);
    PreOrderUnfold(lines, n, i, cs);
    TreeUnfold(lines, n, i, cs);
    hide PreOrder, PreOrders, TreeOf, TreesOf, ChildrenOf, PrintAll;
    var order := PreOrders(lines, n, cs, i);
    assert Pluck(lines, [i] + order) == [lines[i]] + Pluck(lines, order);
  }

  lemma TreeUnfold(lines: seq<Line>, n: nat, i: nat, cs: seq<nat>)
    requires i < n <= |lines| && cs == ChildrenOf(lines, n, i)
    ensures Below(cs, i, n) && TreeOf(lines, n, i) == Tree(lines[i].kind, lines[i].detail, TreesOf(lines, n, cs, i))
  {
  }

  lemma {:induction false} AllPrintedInOrder(lines: seq<Line>, n: nat, cs: seq<nat>, i: nat)
    requires i < n <= |lines| && Below(cs, i, n)
    requires forall k :: 0 <= k < |cs| ==> lines[cs[k]].depth == lines[i].depth + 1
    ensures forall k :: 0 <= k < |PreOrders(lines, n, cs, i)| ==> PreOrders(lines, n, cs, i)[k] < n
    ensures PrintAll(TreesOf(lines, n, cs, i), lines[i].depth + 1) == Pluck(lines, PreOrders(lines, n, cs, i))
    decreases n - i, 0, |cs|
  {
    if cs != [] {
      PrintedInOrder(lines, n, cs[0]);
      AllPrintedInOrder(lines, n, cs[1..], i);
    }
  }

  lemma PrintParsed(lines: seq<Line>)
    requires Nested(lines) && lines != []
    ensures Print(TreeOf(lines, |lines|, 0), 0) == lines
  {
    PrintedInOrder(lines, |lines|, 0);
    WalkIsLineOrder(lines, |lines|);
  }

  // Parsing a printed tree gives back the tree.

  ghost predicate Deep(lines: seq<Line>, depth: nat) {
    && (forall i :: 0 <= i < |lines| ==> depth <= lines[i].depth)
    && (lines != [] ==> lines[0].depth == depth)
    && (forall i :: 0 < i < |lines| ==> lines[i].depth <= lines[i - 1].depth + 1)
  }

  lemma {:induction false} PrintIsDeep(t: Tree, depth: nat)
    ensures Deep(Print(t, depth), depth)
    ensures forall i :: 0 < i < |Print(t, depth)| ==> depth < Print(t, depth)[i].depth
    decreases t, 0
  {
    PrintAllIsDeep(t.children, depth + 1);
  }

  lemma {:induction false} PrintAllIsDeep(ts: seq<Tree>, depth: nat)
    ensures Deep(PrintAll(ts, depth), depth)
    decreases ts, 1
  {
    if ts != [] {
      PrintIsDeep(ts[0], depth);
      PrintAllIsDeep(ts[1..], depth);
    }
  }

  /** A tree always prints as lines that parse. */
  lemma PrintIsNested(t: Tree)
    ensures Nested(Print(t, 0)) && Print(t, 0) != []
  {
    PrintIsDeep(t, 0);
  }

  /** What follows a printed tree starts no deeper than it. */
  ghost predicate Returns(rest: seq<Line>, depth: int) {
    rest != [] ==> rest[0].depth <= depth
  }

  /** No two trees print alike, even with more text after them. */
  lemma {:induction false} PrintInjective(t: Tree, u: Tree, depth: nat, a: seq<Line>, b: seq<Line>)
    requires Print(t, depth) + a == Print(u, depth) + b
    requires Returns(a, depth) && Returns(b, depth)
    ensures t == u && a == b
    decreases t, 0
  {
    var s := Print(t, depth) + a;
    assert s[0] == Line(depth, t.kind, t.detail) == Line(depth, u.kind, u.detail);
    assert s[1..] == PrintAll(t.children, depth + 1) + a;
    assert s[1..] == PrintAll(u.children, depth + 1) + b;
    PrintAllInjective(t.children, u.children, depth + 1, a, b);
  }

  lemma {:induction false} PrintAllInjective(ts: seq<Tree>, us: seq<Tree>, depth: nat, a: seq<Line>, b: seq<Line>)
    requires PrintAll(ts, depth) + a == PrintAll(us, depth) + b
    requires Returns(a, depth - 1) && Returns(b, depth - 1)
    ensures ts == us && a == b
    decreases ts, 1
  {
    hide Print, PrintAll, Returns;
    PrintAllStarts(ts, depth, a);
    PrintAllStarts(us, depth, b);
    if ts != [] && us != [] {
      PrintAllStarts(ts[1..], depth, a);
      PrintAllStarts(us[1..], depth, b);
      var a', b' := PrintAll(ts[1..], depth) + a, PrintAll(us[1..], depth) + b;
      PrintInjective(ts[0], us[0], depth, a', b');
      PrintAllInjective(ts[1..], us[1..], depth, a, b);
    }
  }

  /** What follows decides whether there was a tree at all, and where the first one ends. */
  lemma PrintAllStarts(ts: seq<Tree>, depth: nat, rest: seq<Line>)
    requires Returns(rest, depth - 1)
    ensures Returns(PrintAll(ts, depth) + rest, depth)
    ensures Returns(PrintAll(ts, depth) + rest, depth - 1) <==> ts == []
    ensures ts == [] ==> PrintAll(ts, depth) + rest == rest
    ensures ts != [] ==> PrintAll(ts, depth) + rest == Print(ts[0], depth) + (PrintAll(ts[1..], depth) + rest)
  {
    PrintAllIsDeep(ts, depth);
    if ts != [] {
      var first, others := Print(ts[0], depth), PrintAll(ts[1..], depth);
      assert PrintAll(ts, depth) == first + others && first != [];
      hide Print, PrintAll;
      Assoc(first, others, rest);
      assert (first + (others + rest))[0] == first[0];
    }
  }

  lemma ParsePrinted(t: Tree)
    ensures Nested(Print(t, 0)) && Print(t, 0) != []
    ensures TreeOf(Print(t, 0), |Print(t, 0)|, 0) == t
  {
    PrintIsNested(t);
    var lines := Print(t, 0);
    PrintParsed(lines);
    var u := TreeOf(lines, |lines|, 0);
    assert Print(u, 0) + [] == Print(t, 0) + [];
    PrintInjective(u, t, 0, [], []);
  }
}
