/** Which policies reach a rule: the instance's, its directories', and its sources'. */
module Scopes {
  import opened Options
  import opened Policies

  /** A cleaned path. The parent of a root, or of the working directory, is itself. */
  datatype Path = Path(absolute: bool, names: seq<string>)

  function Parent(p: Path): Path {
    if p.names == [] then p else p.(names := p.names[..|p.names| - 1])
  }

  predicate AtOrAbove(e: Path, d: Path) {
    e.absolute == d.absolute && e.names <= d.names
  }

  /** Where the rules tree is, its team policies by directory, and the instance's own. */
  datatype Loader = Loader(dir: Path, teams: map<Path, Policy>, root: Option<Policy>)

  /** The team policies met on the way up from a directory. */
  ghost function WayUp(l: Loader, d: Path): seq<Option<Policy>>
    decreases |d.names|
  {
    (if d in l.teams then [Some(l.teams[d])] else [])
    + if d == l.dir || d == Parent(d) then [] else WayUp(l, Parent(d))
  }

  /** The policy a rule file's place in the tree decides. */
  method ScopesFor(t: Table, l: Loader, file: Path) returns (p: Policy)
    ensures forall c :: Bound(p, c) == Merged(t, [l.root] + WayUp(l, Parent(file)), c)
    ensures forall c :: c in p ==> Originates([l.root] + WayUp(l, Parent(file)), 1 + |WayUp(l, Parent(file))|, c, p[c])
  {
    var scopes := [l.root];
    var d := Parent(file);
    var walking := true;
    while walking
      invariant [l.root] + WayUp(l, Parent(file)) == scopes + if walking then WayUp(l, d) else []
      decreases walking, |d.names|
    {
      ghost var before := scopes;
      if d in l.teams {
        scopes := scopes + [Some(l.teams[d])];
      }
      Assoc(before, scopes[|before|..], if d == l.dir || d == Parent(d) then [] else WayUp(l, Parent(d)));
      assert scopes == before + scopes[|before|..];
      if d == l.dir || d == Parent(d) {
        walking := false;
      } else {
        d := Parent(d);
      }
    }
    assert scopes + [] == scopes;
    p := Merge(t, scopes);
  }

  /** A team file is collected exactly if its directory is the rule file's or above it, and no
      higher than the rules tree where the file is in it. */
  lemma {:induction false} CollectedExactly(l: Loader, d: Path, s: Option<Policy>)
    ensures s in WayUp(l, d) <==>
              exists e :: e in l.teams && AtOrAbove(e, d) && (AtOrAbove(l.dir, d) ==> AtOrAbove(l.dir, e)) && s == Some(l.teams[e])
    decreases |d.names|
  {
    if d == l.dir || d == Parent(d) {
      forall e | AtOrAbove(e, d) && (AtOrAbove(l.dir, d) ==> AtOrAbove(l.dir, e)) ensures e == d {
        assert e.names == d.names;
      }
      assert AtOrAbove(d, d);
    } else {
      var up := Parent(d);
      CollectedExactly(l, up, s);
      forall e ensures AtOrAbove(e, d) <==> e == d || AtOrAbove(e, up) {
        StepUp(e, d);
      }
      StepUp(l.dir, d);
      assert AtOrAbove(d, d) && (AtOrAbove(l.dir, d) <==> AtOrAbove(l.dir, up));
    }
  }

  /** They are met from the nearest directory up, each once. */
  lemma {:induction false} NearestFirst(l: Loader, d: Path) returns (dirs: seq<Path>)
    ensures |dirs| == |WayUp(l, d)|
    ensures forall i :: 0 <= i < |dirs| ==> dirs[i] in l.teams && AtOrAbove(dirs[i], d) && WayUp(l, d)[i] == Some(l.teams[dirs[i]])
    ensures forall i, j :: 0 <= i < j < |dirs| ==> |dirs[i].names| > |dirs[j].names|
    decreases |d.names|
  {
    var here := if d in l.teams then [d] else [];
    if d == l.dir || d == Parent(d) {
      dirs := here;
    } else {
      var up := NearestFirst(l, Parent(d));
      dirs := here + up;
      forall i | 0 <= i < |up| ensures AtOrAbove(up[i], d) {
        StepUp(up[i], d);
      }
    }
  }

  lemma StepUp(e: Path, d: Path)
    requires d.names != []
    ensures AtOrAbove(e, d) <==> e == d || AtOrAbove(e, Parent(d))
  {
    var up := Parent(d).names;
    assert d.names == up + [d.names[|up|]] && up <= d.names;
    if AtOrAbove(e, d) && |e.names| == |d.names| {
      assert e.names == d.names;
    } else if AtOrAbove(e, d) {
      assert e.names <= up;
    }
  }

  /** A rule's policy: where its file is, then each source its selector reached. */
  method PolicyFor(t: Table, located: Policy, sources: seq<Option<Policy>>) returns (p: Policy)
    ensures forall c :: Bound(p, c) == Merged(t, [Some(located)] + sources, c)
    ensures forall c :: c in p ==> Originates([Some(located)] + sources, 1 + |sources|, c, p[c])
  {
    var scopes := [Some(located)];
    for i := 0 to |sources|
      invariant scopes == [Some(located)] + sources[..i]
    {
      scopes := scopes + [sources[i]];
    }
    assert sources[..|sources|] == sources;
    p := Merge(t, scopes);
  }

  /** Merging in two steps decides nothing: a rule is bound by every policy that reaches it, and
      by whichever of them asks for most. */
  lemma EveryScopeBinds(t: Table, l: Loader, file: Path, located: Policy, sources: seq<Option<Policy>>, p: Policy, check: string)
    requires forall c :: Bound(located, c) == Merged(t, [l.root] + WayUp(l, Parent(file)), c)
    requires forall c :: Bound(p, c) == Merged(t, [Some(located)] + sources, c)
    ensures Bound(p, check) == Merged(t, [l.root] + WayUp(l, Parent(file)) + sources, check)
  {
    MergeNests(t, [l.root] + WayUp(l, Parent(file)), located, sources, check);
    assert Bound(p, check) == Merged(t, [Some(located)] + sources, check);
  }

  /** A team that holds its rules to an error is obeyed, whatever any other scope asks for. */
  lemma SomeScopeIsEnough(t: Table, scopes: seq<Option<Policy>>, scope: Option<Policy>, check: string)
    requires scope in scopes && scope.Some? && check in scope.value
    ensures Merged(t, scopes, check).Some?
    ensures scope.value[check].severity <= Merged(t, scopes, check).value.severity
  {
    var b := BindingOf(scope.value[check]);
    assert Says(scope, check, b);
    SaidBy(scopes, check, b);
    HighestIs(Said(scopes, check));
  }
}
