/** What a query result looks like, and how two results differ. */
module Shapes {
  import opened Options
  import opened Orders

  datatype Column = Column(name: string, dbType: string)

  type Shape = seq<Column>

  type Types = map<string, string>

  /** The result's types by name. A later column of the same name is the one that counts. */
  function TypesOf(cols: Shape): Types {
    if cols == [] then map[] else TypesOf(cols[..|cols| - 1])[cols[|cols| - 1].name := cols[|cols| - 1].dbType]
  }

  /** A name's type is that of the last column with the name. */
  lemma {:induction false} TypesExactly(cols: Shape, name: string, dbType: string)
    ensures Get(TypesOf(cols), name) == Some(dbType)
       <==> exists i :: LastOfName(cols, i, name) && cols[i].dbType == dbType
  {
    if cols != [] {
      var n := |cols| - 1;
      TypesExactly(cols[..n], name, dbType);
      if cols[n].name == name {
        assert LastOfName(cols, n, name);
        assert forall i :: LastOfName(cols, i, name) ==> i == n;
      } else {
        forall i | 0 <= i < n ensures LastOfName(cols[..n], i, name) <==> LastOfName(cols, i, name) {
          assert forall j :: 0 <= j < n ==> cols[..n][j] == cols[j];
        }
      }
    }
  }

  ghost predicate LastOfName(cols: Shape, i: int, name: string) {
    0 <= i < |cols| && cols[i].name == name && forall j :: i < j < |cols| ==> cols[j].name != name
  }

  method TypesByName(cols: Shape) returns (out: Types)
    ensures out == TypesOf(cols)
  {
    out := map[];
    for i := 0 to |cols|
      invariant out == TypesOf(cols[..i])
    {
      assert cols[..i + 1][..i] == cols[..i];
      out := out[cols[i].name := cols[i].dbType];
    }
    assert cols[..|cols|] == cols;
  }

  datatype Difference = Retyped(name: string, was: string, is_: string) | OnlyFirst(name: string) | OnlySecond(name: string)

  /** How one column differs, if it does. */
  function DifferenceAt(a: Types, b: Types, name: string): Option<Difference> {
    if name in a && name in b then if a[name] != b[name] then Some(Retyped(name, a[name], b[name])) else None
    else if name in a then Some(OnlyFirst(name))
    else if name in b then Some(OnlySecond(name))
    else None
  }

  function ByName(d: Difference): seq<int> {
    Codes(d.name)
  }

  /** Each difference of two results once, by column name, and nothing else. */
  ghost predicate Describes(out: seq<Difference>, a: Types, b: Types) {
    && (forall i :: 0 <= i < |out| ==> DifferenceAt(a, b, out[i].name) == Some(out[i]))
    && Ascending(ByName, out)
    && (forall name :: DifferenceAt(a, b, name).Some? ==> DifferenceAt(a, b, name).value in out)
  }

  /** The same, of the columns in `done`. */
  ghost predicate DescribesAmong(out: seq<Difference>, a: Types, b: Types, done: seq<string>) {
    && (forall i :: 0 <= i < |out| ==> DifferenceAt(a, b, out[i].name) == Some(out[i]) && out[i].name in done)
    && Ascending(ByName, out)
    && (forall name :: name in done && DifferenceAt(a, b, name).Some? ==> DifferenceAt(a, b, name).value in out)
  }

  lemma DescribesMore(out: seq<Difference>, a: Types, b: Types, done: seq<string>, name: string)
    requires DescribesAmong(out, a, b, done) && forall x :: x in done ==> Less(Codes(x), Codes(name))
    ensures var here := DifferenceAt(a, b, name);
            DescribesAmong(if here.Some? then out + [here.value] else out, a, b, done + [name])
  {
    var here := DifferenceAt(a, b, name);
    assert here.Some? ==> here.value.name == name;
    hide DifferenceAt, Less, Codes;
    var more := if here.Some? then out + [here.value] else out;
    assert here.Some? ==> more[|out|] == here.value;
    forall n | n in done + [name] && DifferenceAt(a, b, n).Some? ensures DifferenceAt(a, b, n).value in more {
      assert n != name ==> DifferenceAt(a, b, n).value in out;
    }
  }

  /** By column name, so that the same two results are always described alike. */
  method Differences(a: Shape, b: Shape) returns (out: seq<Difference>)
    ensures Describes(out, TypesOf(a), TypesOf(b))
    ensures out == [] <==> TypesOf(a) == TypesOf(b)
  {
    hide TypesOf, DescribesAmong, Describes, Codes, Less;
    var aTypes := TypesByName(a);
    var bTypes := TypesByName(b);
    var names := Names(aTypes.Keys + bTypes.Keys);
    out := [];
    NothingDescribed(aTypes, bTypes);
    for i := 0 to |names|
      invariant DescribesAmong(out, aTypes, bTypes, names[..i])
    {
      var name := names[i];
      DescribesMore(out, aTypes, bTypes, names[..i], name);
      assert names[..i + 1] == names[..i] + [name];
      if name in aTypes && name in bTypes && aTypes[name] != bTypes[name] {
        out := out + [Retyped(name, aTypes[name], bTypes[name])];
      } else if name in aTypes && name !in bTypes {
        out := out + [OnlyFirst(name)];
      } else if name in bTypes && name !in aTypes {
        out := out + [OnlySecond(name)];
      }
    }
    assert names[..|names|] == names;
    AllDescribed(aTypes, bTypes, out, names);
    SameIfNoDifference(aTypes, bTypes, out);
  }

  lemma NothingDescribed(a: Types, b: Types)
    ensures DescribesAmong([], a, b, [])
  {
  }

  lemma AllDescribed(a: Types, b: Types, out: seq<Difference>, names: seq<string>)
    requires DescribesAmong(out, a, b, names) && Enumerates(names, a.Keys + b.Keys)
    ensures Describes(out, a, b)
  {
    hide Ascending;
  }

  /** Two results have one description. */
  lemma OneDescription(out: seq<Difference>, other: seq<Difference>, a: Types, b: Types)
    requires Describes(out, a, b) && Describes(other, a, b)
    ensures out == other
  {
    var e := set d | d in out;
    forall d ensures d in out <==> d in other {
      if d in out {
        assert DifferenceAt(a, b, d.name) == Some(d);
      }
      if d in other {
        assert DifferenceAt(a, b, d.name) == Some(d);
      }
    }
    SortedUnique(ByName, out, other, e);
  }

  lemma SameIfNoDifference(a: Types, b: Types, out: seq<Difference>)
    requires Describes(out, a, b)
    ensures out == [] <==> a == b
  {
    if out == [] {
      forall n ensures Get(a, n) == Get(b, n) {
        assert DifferenceAt(a, b, n).None?;
      }
      assert forall n :: n in a <==> Get(a, n).Some?;
      assert forall n :: n in b <==> Get(b, n).Some?;
      assert forall n :: n in a ==> Get(a, n) == Some(a[n]) && Get(b, n) == Some(b[n]);
    } else {
      assert DifferenceAt(a, b, out[0].name).Some?;
    }
  }

  /** What a description says: the first and the second type of a column both have, and which of
      the two lacks one. */
  lemma DescribesExactly(out: seq<Difference>, a: Types, b: Types, name: string, was: string, is_: string)
    requires Describes(out, a, b)
    ensures Retyped(name, was, is_) in out <==> Get(a, name) == Some(was) && Get(b, name) == Some(is_) && was != is_
    ensures OnlyFirst(name) in out <==> name in a && name !in b
    ensures OnlySecond(name) in out <==> name in b && name !in a
  {
    InDescription(out, a, b, Retyped(name, was, is_));
    InDescription(out, a, b, OnlyFirst(name));
    InDescription(out, a, b, OnlySecond(name));
  }

  lemma InDescription(out: seq<Difference>, a: Types, b: Types, d: Difference)
    requires Describes(out, a, b)
    ensures d in out <==> DifferenceAt(a, b, d.name) == Some(d)
  {
    hide DifferenceAt, Ascending;
  }

  ghost predicate DistinctColumns(cols: Shape) {
    forall i, j :: 0 <= i < j < |cols| ==> cols[i].name != cols[j].name
  }

  lemma {:induction false} TypesAt(cols: Shape, c: Column)
    requires DistinctColumns(cols)
    ensures c in cols <==> Get(TypesOf(cols), c.name) == Some(c.dbType)
  {
    if cols != [] {
      var n := |cols| - 1;
      TypesAt(cols[..n], c);
      assert cols == cols[..n] + [cols[n]];
      assert c in cols[..n] ==> c.name != cols[n].name;
    }
  }

  /** The order of the columns decides nothing. */
  lemma OrderDecidesNothing(a: Shape, b: Shape)
    requires DistinctColumns(a) && DistinctColumns(b)
    ensures TypesOf(a) == TypesOf(b) <==> forall c :: c in a <==> c in b
  {
    forall c ensures (c in a <==> Get(TypesOf(a), c.name) == Some(c.dbType)) && (c in b <==> Get(TypesOf(b), c.name) == Some(c.dbType)) {
      TypesAt(a, c);
      TypesAt(b, c);
    }
    var x, y := TypesOf(a), TypesOf(b);
    if forall c :: c in a <==> c in b {
      forall n ensures Get(x, n) == Get(y, n) {
        if n in x {
          assert Column(n, x[n]) in a;
        }
        if n in y {
          assert Column(n, y[n]) in b;
        }
      }
      assert forall n :: n in x <==> Get(x, n).Some?;
      assert forall n :: n in y <==> Get(y, n).Some?;
      assert forall n :: n in x ==> Get(x, n) == Some(x[n]) && Get(y, n) == Some(y[n]);
    }
  }
}
