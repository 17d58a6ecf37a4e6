/** Reading the indented syntax tree ClickHouse prints. */
module Asts {
  import opened Options
  import opened Orders
  import opened Outline
  import opened OutlineText

  class Node {
    const kind: string
    const detail: string
    var parent: Node?
    var children: seq<Node>

    constructor (kind: string, detail: string)
      ensures this.kind == kind && this.detail == detail && parent == null && children == []
    {
      this.kind, this.detail, parent, children := kind, detail, null, [];
    }
  }

  datatype Fault = StartsDeep | SecondRoot | NoParent | Nothing

  datatype Parsed = Failed(fault: Fault) | Root(root: Node)

  /** What is wrong with a line, given the line before it. */
  ghost function FaultAt(lines: seq<Line>, k: nat): Option<Fault>
    requires k < |lines|
  {
    if k == 0 then if lines[0].depth != 0 then Some(StartsDeep) else None
    else if lines[k].depth == 0 then Some(SecondRoot)
    else if lines[k].depth > lines[k - 1].depth + 1 then Some(NoParent)
    else None
  }

  /** The first thing wrong with some lines: none of the lines before it was. */
  ghost predicate FirstFault(lines: seq<Line>, fault: Fault) {
    if lines == [] then fault == Nothing
    else exists k :: 0 <= k < |lines| && Nested(lines[..k]) && FaultAt(lines, k) == Some(fault)
  }

  ghost function NodesAt(nodes: seq<Node>, order: seq<nat>): seq<Node>
    requires forall k :: 0 <= k < |order| ==> order[k] < |nodes|
  {
    seq(|order|, k requires 0 <= k < |order| => nodes[order[k]])
  }

  ghost predicate Distinct(nodes: seq<Node>) {
    forall i, j :: 0 <= i < j < |nodes| ==> nodes[i] != nodes[j]
  }

  /** A node carries its line, hangs below the node of its parent line, and holds the nodes of
      its child lines in order. */
  ghost predicate Shaped(nodes: seq<Node>, lines: seq<Line>, i: nat)
    requires i < |nodes| <= |lines|
    reads nodes[i]
  {
    && nodes[i].kind == lines[i].kind && nodes[i].detail == lines[i].detail
    && nodes[i].parent == (if ParentOf(lines, i) < 0 then null else nodes[ParentOf(lines, i)])
    && nodes[i].children == NodesAt(nodes, ChildrenOf(lines, |nodes|, i))
  }

  /** The nodes are the tree of the first lines. */
  ghost predicate Linked(nodes: seq<Node>, lines: seq<Line>)
    reads nodes
  {
    && |nodes| <= |lines|
    && Distinct(nodes)
    && forall i :: 0 <= i < |nodes| ==> Shaped(nodes, lines, i)
  }

  /** The stack: the most recent node at every depth down to the last line's. */
  ghost predicate Recent(byDepth: seq<Node>, nodes: seq<Node>, lines: seq<Line>) {
    && |nodes| <= |lines|
    && (nodes == [] ==> byDepth == [])
    && (nodes != [] ==> |byDepth| == lines[|nodes| - 1].depth + 1)
    && forall d :: 0 <= d < |byDepth| ==> RecentAt(byDepth[d], nodes, lines, d)
  }

  ghost predicate RecentAt(node: Node, nodes: seq<Node>, lines: seq<Line>, d: nat)
    requires |nodes| <= |lines|
  {
    Last(lines, |nodes|, d) >= 0 && node == nodes[Last(lines, |nodes|, d)]
  }

  lemma RecentMore(byDepth: seq<Node>, nodes: seq<Node>, lines: seq<Line>, node: Node)
    requires Recent(byDepth, nodes, lines) && |nodes| < |lines|
    requires lines[|nodes|].depth <= |byDepth|
    ensures Recent(byDepth[..lines[|nodes|].depth] + [node], nodes + [node], lines)
  {
    var n := |nodes|;
    var depth := lines[n].depth;
    var more := byDepth[..depth] + [node];
    forall d | 0 <= d < |more| ensures RecentAt(more[d], nodes + [node], lines, d) {
      if d < depth {
        assert RecentAt(byDepth[d], nodes, lines, d);
        LastIs(lines, n + 1, d, Last(lines, n, d));
      } else {
        LastIs(lines, n + 1, d, n);
      }
    }
  }

  lemma NodesAtMore(nodes: seq<Node>, node: Node, order: seq<nat>)
    requires forall k :: 0 <= k < |order| ==> order[k] < |nodes|
    ensures NodesAt(nodes + [node], order) == NodesAt(nodes, order)
    ensures NodesAt(nodes + [node], order + [|nodes|]) == NodesAt(nodes, order) + [node]
  {
  }

  /** Hangs one more node below the node of its parent line. */
  method Attach(node: Node, parent: Node, ghost nodes: seq<Node>, ghost lines: seq<Line>)
    requires Linked(nodes, lines) && |nodes| < |lines| && node !in nodes
    requires node.kind == lines[|nodes|].kind && node.detail == lines[|nodes|].detail && node.children == []
    requires ParentOf(lines, |nodes|) >= 0 && parent == nodes[ParentOf(lines, |nodes|)]
    modifies node`parent, parent`children
    ensures Linked(nodes + [node], lines)
  {
    ghost var n := |nodes|;
    ghost var p := ParentOf(lines, n);
    ghost var more := nodes + [node];
    node.parent := parent;
    parent.children := parent.children + [node];
    hide Last, ParentOf, NodesAt;
    forall i | 0 <= i < n ensures Shaped(more, lines, i) {
      assert old(Shaped(nodes, lines, i));
      NodesAtMore(nodes, node, ChildrenOf(lines, n, i));
      assert i != p ==> nodes[i] != nodes[p];
    }
    assert Shaped(more, lines, n);
  }

  lemma Start(lines: seq<Line>)
    ensures Linked([], lines) && Recent([], [], lines) && Nested(lines[..0])
    ensures lines == [] ==> FirstFault(lines, Nothing)
  {
  }

  lemma {:induction false} ReadPrefix(raws: seq<string>, k: nat)
    requires k <= |raws|
    ensures ReadLines(raws[..k]) <= ReadLines(raws)
    decreases |raws|
  {
    if k < |raws| {
      ReadPrefix(raws[..|raws| - 1], k);
      assert raws[..|raws| - 1][..k] == raws[..k];
    } else {
      assert raws[..k] == raws;
    }
  }

  /** The next line that is not blank is the next line of the whole text. */
  lemma ReadOneMore(raws: seq<string>, k: nat)
    requires k < |raws|
    ensures ReadLines(raws[..0]) == []
    ensures var read := ReadLine(raws[k]); var before := ReadLines(raws[..k]);
            && ReadLines(raws[..k + 1]) == before + (if read.Some? then [read.value] else [])
            && (read.Some? ==> |before| < |ReadLines(raws)| && ReadLines(raws)[|before|] == read.value)
  {
    assert raws[..k + 1][..k] == raws[..k];
    ReadPrefix(raws, k + 1);
  }

  /** What the guards of the loop decide about the next line. */
  lemma NextLine(byDepth: seq<Node>, nodes: seq<Node>, lines: seq<Line>, node: Node)
    requires Recent(byDepth, nodes, lines) && |nodes| < |lines| && Nested(lines[..|nodes|])
    ensures var n := |nodes|; var depth := lines[n].depth;
            && (FaultAt(lines, n) == if n == 0 then if depth != 0 then Some(StartsDeep) else None
                                     else if depth == 0 then Some(SecondRoot)
                                     else if depth > |byDepth| then Some(NoParent) else None)
            && (FaultAt(lines, n).Some? ==> !Nested(lines) && FirstFault(lines, FaultAt(lines, n).value))
            && (FaultAt(lines, n).None? ==>
                  && depth <= |byDepth| && Nested(lines[..n + 1])
                  && Recent(byDepth[..depth] + [node], nodes + [node], lines)
                  && (n > 0 ==> ParentOf(lines, n) >= 0 && byDepth[depth - 1] == nodes[ParentOf(lines, n)]))
  {
    var n := |nodes|;
    if FaultAt(lines, n).Some? {
      assert !Nested(lines);
    } else {
      RecentMore(byDepth, nodes, lines, node);
      if n > 0 {
        assert RecentAt(byDepth[lines[n].depth - 1], nodes, lines, lines[n].depth - 1);
      }
    }
  }

  lemma Planted(lines: seq<Line>, node: Node)
    requires lines != [] && lines[0].depth == 0
    requires node.kind == lines[0].kind && node.detail == lines[0].detail && node.parent == null && node.children == []
    ensures Linked([] + [node], lines)
  {
    assert ([] + [node])[0] == node;
    assert ParentOf(lines, 0) == -1;
  }

  /** The lines that are not blank, as a tree. */
  method ParseAST(out: string) returns (r: Parsed, ghost nodes: seq<Node>)
    ensures r.Root? <==> Nested(LinesOf(out)) && LinesOf(out) != []
    ensures r.Failed? ==> FirstFault(LinesOf(out), r.fault)
    ensures r.Root? ==> fresh(nodes) && |nodes| == |LinesOf(out)| && Linked(nodes, LinesOf(out)) && r.root == nodes[0]
  {
    var raws := Split(out, '\n');
    ghost var lines := LinesOf(out);
    var root: Node? := null;
    var byDepth: seq<Node> := [];
    nodes := [];
    hide Linked, Recent, Nested, ReadLine, ReadLines, FirstFault, Last, ParentOf, Split;
    Start(lines);
    ReadOneMore(raws, 0);
    for k := 0 to |raws|
      invariant |nodes| <= |lines| && lines[..|nodes|] == ReadLines(raws[..k])
      invariant fresh(nodes) && Linked(nodes, lines) && Recent(byDepth, nodes, lines) && Nested(lines[..|nodes|])
      invariant root == if nodes == [] then null else nodes[0]
    {
      ReadOneMore(raws, k);
      var read := ReadLine(raws[k]);
      if read.None? {
        continue;
      }
      var line := read.value;
      ghost var n := |nodes|;
      var node := new Node(line.kind, line.detail);
      NextLine(byDepth, nodes, lines, node);
      if root == null {
        if line.depth != 0 {
          return Failed(StartsDeep), nodes;
        }
        root := node;
        Planted(lines, node);
      } else if line.depth == 0 {
        return Failed(SecondRoot), nodes;
      } else if line.depth > |byDepth| {
        return Failed(NoParent), nodes;
      } else {
        Attach(node, byDepth[line.depth - 1], nodes, lines);
      }
      byDepth := byDepth[..line.depth] + [node];
      nodes := nodes + [node];
    }
    assert raws[..|raws|] == raws;
    if root == null {
      return Failed(Nothing), nodes;
    }
    r := Root(root);
  }

  /** A node, with everything below it, is a tree. */
  ghost predicate Mirrors(node: Node, t: Tree, repr: set<Node>)
    reads repr
    decreases t
  {
    && node in repr && node.kind == t.kind && node.detail == t.detail
    && |node.children| == |t.children|
    && forall k :: 0 <= k < |t.children| ==> Mirrors(node.children[k], t.children[k], repr)
  }

  ghost function AsSet(nodes: seq<Node>): set<Node> {
    set n | n in nodes
  }

  lemma {:induction false} LinkedMirrors(nodes: seq<Node>, lines: seq<Line>, i: nat)
    requires Linked(nodes, lines) && i < |nodes|
    ensures Mirrors(nodes[i], TreeOf(lines, |nodes|, i), AsSet(nodes))
    decreases |nodes| - i
  {
    var n := |nodes|;
    var cs := ChildrenOf(lines, n, i);
    var t := TreeOf(lines, n, i);
    TreesOfAt(lines, n, cs, i);
    assert Shaped(nodes, lines, i);
    forall k | 0 <= k < |t.children| ensures Mirrors(nodes[i].children[k], t.children[k], AsSet(nodes)) {
      LinkedMirrors(nodes, lines, cs[k]);
    }
  }

  lemma {:induction false} TreesOfAt(lines: seq<Line>, n: nat, cs: seq<nat>, i: nat)
    requires i < n <= |lines| && Below(cs, i, n)
    ensures |TreesOf(lines, n, cs, i)| == |cs|
    ensures forall k :: 0 <= k < |cs| ==> TreesOf(lines, n, cs, i)[k] == TreeOf(lines, n, cs[k])
    decreases |cs|
  {
    hide TreeOf;
    if cs != [] {
      TreesOfAt(lines, n, cs[1..], i);
    }
  }

  /** Written out with any suffixes, a tree of legible names is read back as itself. */
  lemma ReadsBack(t: Tree, suffixes: seq<string>, nodes: seq<Node>)
    requires |suffixes| == |Print(t, 0)|
    requires forall i :: 0 <= i < |suffixes| ==> Legible(Print(t, 0)[i]) && IsSuffix(suffixes[i])
    ensures var lines := LinesOf(Join(WriteAll(Print(t, 0), suffixes), '\n'));
            && Nested(lines) && lines != []
            && (|nodes| == |lines| && Linked(nodes, lines) ==> Mirrors(nodes[0], t, AsSet(nodes)))
  {
    ParsePrinted(t);
    LinesOfWritten(Print(t, 0), suffixes);
    var lines := Print(t, 0);
    if |nodes| == |lines| && Linked(nodes, lines) {
      LinkedMirrors(nodes, lines, 0);
    }
  }

  /** What a search looks at: a node, and what it hangs below. */
  datatype Sight = Sight(kind: string, detail: string, parentKind: Option<string>)

  function SightAt(lines: seq<Line>, i: nat): Sight
    requires i < |lines|
  {
    Sight(lines[i].kind, lines[i].detail, if ParentOf(lines, i) < 0 then None else Some(lines[ParentOf(lines, i)].kind))
  }

  /** The node itself, if it is one to be found. */
  ghost function Hit(nodes: seq<Node>, lines: seq<Line>, i: nat, match_: Sight -> bool): seq<Node>
    requires i < |nodes| <= |lines|
  {
    if match_(SightAt(lines, i)) then [nodes[i]] else []
  }

  ghost function Found(nodes: seq<Node>, lines: seq<Line>, order: seq<nat>, match_: Sight -> bool): seq<Node>
    requires |nodes| <= |lines| && Inside(order, |nodes|)
  {
    if order == [] then []
    else Found(nodes, lines, order[..|order| - 1], match_) + Hit(nodes, lines, order[|order| - 1], match_)
  }

  lemma FoundLast(nodes: seq<Node>, lines: seq<Line>, a: seq<nat>, i: nat, match_: Sight -> bool)
    requires i < |nodes| <= |lines| && Inside(a, |nodes|)
    ensures Inside(a + [i], |nodes|)
    ensures Found(nodes, lines, a + [i], match_) == Found(nodes, lines, a, match_) + Hit(nodes, lines, i, match_)
  {
    assert (a + [i])[..|a|] == a;
    hide Hit;
  }

  lemma {:induction false} FoundConcat(nodes: seq<Node>, lines: seq<Line>, a: seq<nat>, b: seq<nat>, match_: Sight -> bool)
    requires |nodes| <= |lines| && Inside(a, |nodes|) && Inside(b, |nodes|)
    ensures Inside(a + b, |nodes|)
    ensures Found(nodes, lines, a + b, match_) == Found(nodes, lines, a, match_) + Found(nodes, lines, b, match_)
    decreases |b|
  {
    hide Hit, Found;
    if b == [] {
      assert a + b == a;
      FoundNone(nodes, lines, match_);
    } else {
      var n := |b| - 1;
      var front, last := b[..n], b[n];
      assert Inside(front, |nodes|) && b == front + [last];
      FoundConcat(nodes, lines, a, front, match_);
      FoundLast(nodes, lines, a + front, last, match_);
      FoundLast(nodes, lines, front, last, match_);
      Assoc(a, front, [last]);
      Assoc(Found(nodes, lines, a, match_), Found(nodes, lines, front, match_), Hit(nodes, lines, last, match_));
    }
  }

  ghost predicate Inside(order: seq<nat>, n: nat) {
    forall k :: 0 <= k < |order| ==> order[k] < n
  }

  lemma WalkInside(lines: seq<Line>, n: nat, i: nat)
    requires i < n <= |lines|
    ensures Inside(PreOrder(lines, n, i), n)
  {
    PrintedInOrder(lines, n, i);
  }

  function See(node: Node): Sight
    reads node
  {
    Sight(node.kind, node.detail, if node.parent == null then None else Some(node.parent.kind))
  }

  lemma FoundOne(nodes: seq<Node>, lines: seq<Line>, i: nat, match_: Sight -> bool)
    requires i < |nodes| <= |lines|
    ensures Inside([i], |nodes|)
    ensures Found(nodes, lines, [i], match_) == Hit(nodes, lines, i, match_)
  {
    assert [i][..0] == [];
  }

  lemma FoundAfter(nodes: seq<Node>, lines: seq<Line>, found: seq<Node>, a: seq<nat>, b: seq<nat>, match_: Sight -> bool)
    requires |nodes| <= |lines| && Inside(a, |nodes|) && Inside(b, |nodes|)
    ensures Inside(a + b, |nodes|)
    ensures found + Found(nodes, lines, a, match_) + Found(nodes, lines, b, match_) == found + Found(nodes, lines, a + b, match_)
  {
    FoundConcat(nodes, lines, a, b, match_);
    hide Found, Inside;
  }

  lemma PreOrdersNone(lines: seq<Line>, n: nat, i: nat)
    requires i < n <= |lines|
    ensures PreOrders(lines, n, [], i) == []
  {
  }

  lemma LinkedNode(nodes: seq<Node>, lines: seq<Line>, i: nat)
    requires Linked(nodes, lines) && i < |nodes|
    ensures See(nodes[i]) == SightAt(lines, i)
    ensures var cs := ChildrenOf(lines, |nodes|, i);
            Below(cs, i, |nodes|) && nodes[i].children == NodesAt(nodes, cs)
  {
    assert Shaped(nodes, lines, i);
    if ParentOf(lines, i) >= 0 {
      assert Shaped(nodes, lines, ParentOf(lines, i));
    }
  }

  /** Visits a node and then each of its children, and collects what matches. */
  method Walk(node: Node, match_: Sight -> bool, found: seq<Node>, ghost nodes: seq<Node>, ghost lines: seq<Line>, ghost i: nat)
    returns (out: seq<Node>)
    requires Linked(nodes, lines) && i < |nodes| && node == nodes[i]
    ensures Inside(PreOrder(lines, |nodes|, i), |nodes|)
    ensures out == found + Found(nodes, lines, PreOrder(lines, |nodes|, i), match_)
    decreases |nodes| - i, 1
  {
    ghost var n := |nodes|;
    ghost var cs := ChildrenOf(lines, n, i);
    LinkedNode(nodes, lines, i);
    out := found;
    if match_(See(node)) {
      out := out + [node];
    }
    FoundOne(nodes, lines, i, match_);
    assert out == found + Found(nodes, lines, [i], match_);
    hide *;
    WalkInside(lines, n, i);
    PreOrderUnfold(lines, n, i, cs);
    out := WalkChildren(node.children, match_, out, nodes, lines, cs, i);
    FoundAfter(nodes, lines, found, [i], PreOrders(lines, n, cs, i), match_);
  }

  method WalkChildren(children: seq<Node>, match_: Sight -> bool, found: seq<Node>,
                      ghost nodes: seq<Node>, ghost lines: seq<Line>, ghost cs: seq<nat>, ghost i: nat)
    returns (out: seq<Node>)
    requires Linked(nodes, lines) && i < |nodes| <= |lines| && Below(cs, i, |nodes|) && children == NodesAt(nodes, cs)
    ensures Inside(PreOrders(lines, |nodes|, cs, i), |nodes|)
    ensures out == found + Found(nodes, lines, PreOrders(lines, |nodes|, cs, i), match_)
    decreases |nodes| - i, 0
  {
    ghost var n := |nodes|;
    hide Linked, PreOrder, PreOrders, Found, Inside;
    out := found;
    PreOrdersNone(lines, n, i);
    FoundNone(nodes, lines, match_);
    for k := 0 to |children|
      invariant Inside(PreOrders(lines, n, cs[..k], i), n)
      invariant out == found + Found(nodes, lines, PreOrders(lines, n, cs[..k], i), match_)
    {
      out := Walk(children[k], match_, out, nodes, lines, cs[k]);
      PreOrdersSnoc(lines, n, cs[..k], cs[k], i);
      assert cs[..k + 1] == cs[..k] + [cs[k]];
      FoundAfter(nodes, lines, found, PreOrders(lines, n, cs[..k], i), PreOrder(lines, n, cs[k]), match_);
    }
    assert cs[..|cs|] == cs;
  }

  lemma FoundNone(nodes: seq<Node>, lines: seq<Line>, match_: Sight -> bool)
    requires |nodes| <= |lines|
    ensures Inside([], |nodes|) && Found(nodes, lines, [], match_) == []
  {
  }

  /** Every node of the tree once, in the order of the lines it was read from. */
  method Find(root: Node, match_: Sight -> bool, ghost nodes: seq<Node>, ghost lines: seq<Line>) returns (out: seq<Node>)
    requires Linked(nodes, lines) && |nodes| == |lines| > 0 && Nested(lines) && root == nodes[0]
    ensures out == Found(nodes, lines, UpTo(|lines|), match_)
  {
    WalkIsLineOrder(lines, |lines|);
    out := Walk(root, match_, [], nodes, lines, 0);
  }

  predicate InTablePosition(s: Sight) {
    s.kind == "Function" && s.parentKind == Some("TableExpression")
  }

  /** The names of the functions in table position, in line order. */
  ghost function TableFunctionsOf(lines: seq<Line>, n: nat): seq<string>
    requires n <= |lines|
  {
    if n == 0 then []
    else TableFunctionsOf(lines, n - 1) + if InTablePosition(SightAt(lines, n - 1)) then [lines[n - 1].detail] else []
  }

  /** A function directly below a table expression. */
  ghost predicate IsTableFunction(lines: seq<Line>, i: nat)
    requires i < |lines|
  {
    lines[i].kind == "Function" && ParentOf(lines, i) >= 0 && lines[ParentOf(lines, i)].kind == "TableExpression"
  }

  /** The names are those of the lines at these places, which are all the table functions. */
  ghost predicate NamesAt(names: seq<string>, places: seq<nat>, lines: seq<Line>, n: nat)
    requires n <= |lines|
  {
    && |names| == |places|
    && (forall j, k :: 0 <= j < k < |places| ==> places[j] < places[k])
    && (forall k :: 0 <= k < |places| ==> places[k] < n && IsTableFunction(lines, places[k]) && names[k] == lines[places[k]].detail)
    && (forall i :: 0 <= i < n && IsTableFunction(lines, i) ==> i in places)
  }

  lemma {:induction false} TableFunctionsExactly(lines: seq<Line>, n: nat) returns (places: seq<nat>)
    requires n <= |lines|
    ensures NamesAt(TableFunctionsOf(lines, n), places, lines, n)
  {
    hide NamesAt, IsTableFunction, SightAt, InTablePosition;
    if n == 0 {
      places := [];
      NoNames(lines);
    } else {
      var before := TableFunctionsExactly(lines, n - 1);
      InTablePositionExactly(lines, n - 1);
      places := if IsTableFunction(lines, n - 1) then before + [n - 1] else before;
      OneMoreName(TableFunctionsOf(lines, n - 1), before, lines, n - 1);
      assert TableFunctionsOf(lines, n - 1) + [] == TableFunctionsOf(lines, n - 1);
    }
  }

  lemma NoNames(lines: seq<Line>)
    ensures NamesAt([], [], lines, 0)
  {
  }

  lemma InTablePositionExactly(lines: seq<Line>, i: nat)
    requires i < |lines|
    ensures InTablePosition(SightAt(lines, i)) <==> IsTableFunction(lines, i)
  {
  }

  lemma OneMoreName(names: seq<string>, places: seq<nat>, lines: seq<Line>, n: nat)
    requires n < |lines| && NamesAt(names, places, lines, n)
    ensures IsTableFunction(lines, n) ==> NamesAt(names + [lines[n].detail], places + [n], lines, n + 1)
    ensures !IsTableFunction(lines, n) ==> NamesAt(names, places, lines, n + 1)
  {
    hide IsTableFunction;
    assert (places + [n])[|places|] == n;
  }

  /** By position and never by name, and sorted. */
  method TableFunctions(root: Node, ghost nodes: seq<Node>, ghost lines: seq<Line>) returns (out: seq<string>)
    requires Linked(nodes, lines) && |nodes| == |lines| > 0 && Nested(lines) && root == nodes[0]
    ensures multiset(out) == multiset(TableFunctionsOf(lines, |lines|)) && Ordered(Codes, out)
  {
    var found := Find(root, InTablePosition, nodes, lines);
    out := [];
    for k := 0 to |found|
      invariant out == DetailsOf(found[..k])
    {
      out := out + [found[k].detail];
      assert found[..k + 1][..k] == found[..k];
    }
    assert found[..|found|] == found;
    FoundDetails(nodes, lines, |lines|);
    out := Sort(Codes, out);
  }

  ghost function DetailsOf(found: seq<Node>): seq<string> {
    if found == [] then [] else DetailsOf(found[..|found| - 1]) + [found[|found| - 1].detail]
  }

  lemma {:induction false} FoundDetails(nodes: seq<Node>, lines: seq<Line>, n: nat)
    requires Linked(nodes, lines) && n <= |nodes|
    ensures Inside(UpTo(n), |nodes|)
    ensures DetailsOf(Found(nodes, lines, UpTo(n), InTablePosition)) == TableFunctionsOf(lines, n)
  {
    if n > 0 {
      FoundDetails(nodes, lines, n - 1);
      FoundOneMore(nodes, lines, n - 1, InTablePosition);
      hide Found, UpTo, SightAt, Linked;
      DetailsMore(Found(nodes, lines, UpTo(n - 1), InTablePosition), nodes[n - 1]);
    }
  }

  lemma FoundOneMore(nodes: seq<Node>, lines: seq<Line>, n: nat, match_: Sight -> bool)
    requires Linked(nodes, lines) && n < |nodes|
    ensures Inside(UpTo(n), |nodes|) && Inside(UpTo(n + 1), |nodes|)
    ensures Found(nodes, lines, UpTo(n + 1), match_)
         == if match_(SightAt(lines, n)) then Found(nodes, lines, UpTo(n), match_) + [nodes[n]] else Found(nodes, lines, UpTo(n), match_)
    ensures nodes[n].detail == lines[n].detail
  {
    assert Shaped(nodes, lines, n);
    assert UpTo(n + 1)[..n] == UpTo(n);
    hide Linked, Shaped, SightAt;
  }

  lemma DetailsMore(found: seq<Node>, node: Node)
    ensures DetailsOf(found + [node]) == DetailsOf(found) + [node.detail]
  {
    assert (found + [node])[..|found|] == found;
  }
}
