/** Policy from several scopes, merged so that the strictest setting binds. */
module Policies {
  import opened Options
  import opened Orders

  /** Off, warning, error, in the order the merge takes the maximum over. */
  type Severity = s: int | 0 <= s <= 2

  const OFF: Severity := 0
  const ERROR: Severity := 2

  datatype ListKind = NoList | Required | Allowed | Ceilings

  /** A check as it ships. */
  datatype Check = Check(severity: Severity, keys: seq<string>, kind: ListKind, fixed: bool)

  type Table = map<string, Check>

  datatype Setting = Setting(severity: Severity, keys: seq<string>, file: string, line: int)

  type Policy = map<string, Setting>

  function DefaultFor(t: Table, check: string): Option<Setting> {
    if check !in t || t[check].fixed then None else Some(Setting(t[check].severity, t[check].keys, "", 0))
  }

  predicate IsKind(t: Table, check: string, kind: ListKind) {
    check in t && t[check].kind == kind
  }

  /** The setting that applies: the policy's, else the shipped one, else an error. */
  function For(t: Table, p: Option<Policy>, check: string): Setting {
    if p.Some? && check in p.value then p.value[check]
    else
      var d := DefaultFor(t, check);
      if d.Some? then d.value else Setting(ERROR, [], "", 0)
  }

  ghost function KeySet(keys: seq<string>): set<string> {
    set k | k in keys
  }

  lemma KeySetMore(keys: seq<string>, k: string)
    ensures KeySet(keys + [k]) == KeySet(keys) + {k}
  {
    assert forall x :: x in keys ==> x in keys + [k];
  }

  /** Only what both lists permit, each once and sorted. */
  method Intersect(a: seq<string>, b: seq<string>) returns (out: seq<string>)
    ensures KeySet(out) == KeySet(a) * KeySet(b) && Ascending(Codes, out)
  {
    hide Ascending, Ordered;
    var in_ := Collect(a, {});
    out := [];
    for i := 0 to |b|
      invariant KeySet(out) == KeySet(a) * KeySet(b[..i])
    {
      KeySetMore(b[..i], b[i]);
      assert b[..i + 1] == b[..i] + [b[i]];
      if b[i] in in_ {
        KeySetMore(out, b[i]);
        out := out + [b[i]];
      }
    }
    assert b[..|b|] == b;
    var sorted := Sort(Codes, out);
    assert forall x :: x in sorted <==> x in multiset(sorted);
    assert forall x :: x in out <==> x in multiset(out);
    out := Compact(sorted);
  }

  method Collect(keys: seq<string>, already: set<string>) returns (seen: set<string>)
    ensures seen == already + KeySet(keys)
  {
    seen := already;
    for i := 0 to |keys|
      invariant seen == already + KeySet(keys[..i])
    {
      seen := seen + {keys[i]};
    }
    assert keys[..|keys|] == keys;
  }

  /** What either list holds. An empty second list leaves the first as it is. */
  method Union(a: seq<string>, b: seq<string>) returns (out: seq<string>)
    ensures KeySet(out) == KeySet(a) + KeySet(b)
    ensures if b == [] then out == a else Ascending(Codes, out)
  {
    if b == [] {
      return a;
    }
    var seen := Collect(a, {});
    seen := Collect(b, seen);
    out := Names(seen);
  }

  /** Whichever of two settings binds harder. The origin follows the severity. */
  method Strictest(current: Setting, incoming: Setting, allowlist: bool) returns (merged: Setting)
    ensures merged.severity == MaxOf(current.severity, incoming.severity)
    ensures if merged.severity > current.severity then merged.file == incoming.file && merged.line == incoming.line
            else merged.file == current.file && merged.line == current.line
    ensures KeySet(merged.keys)
         == if allowlist then KeySet(current.keys) * KeySet(incoming.keys) else KeySet(current.keys) + KeySet(incoming.keys)
  {
    merged := current;
    if incoming.severity > current.severity {
      merged := merged.(severity := incoming.severity, file := incoming.file, line := incoming.line);
    }
    var keys;
    if allowlist {
      keys := Intersect(current.keys, incoming.keys);
    } else {
      keys := Union(current.keys, incoming.keys);
    }
    merged := merged.(keys := keys);
  }

  function MaxOf(a: Severity, b: Severity): Severity {
    if b > a then b else a
  }

  // What a merge means, scope by scope.

  /** What a setting amounts to: the order of its keys and its origin do not bind anything. */
  datatype Binding = Binding(severity: Severity, keys: set<string>)

  ghost function BindingOf(s: Setting): Binding {
    Binding(s.severity, KeySet(s.keys))
  }

  ghost function Bound(p: Policy, check: string): Option<Binding> {
    if check in p then Some(BindingOf(p[check])) else None
  }

  /** What each scope that configures a check says of it. */
  ghost function Said(scopes: seq<Option<Policy>>, check: string): seq<Binding> {
    if scopes == [] then []
    else
      var last := scopes[|scopes| - 1];
      Said(scopes[..|scopes| - 1], check) + if last.Some? && check in last.value then [BindingOf(last.value[check])] else []
  }

  ghost function Highest(bs: seq<Binding>): Severity {
    if bs == [] then OFF else MaxOf(Highest(bs[..|bs| - 1]), bs[|bs| - 1].severity)
  }

  ghost function AnyKeys(bs: seq<Binding>): set<string> {
    if bs == [] then {} else AnyKeys(bs[..|bs| - 1]) + bs[|bs| - 1].keys
  }

  ghost function AllKeys(bs: seq<Binding>): set<string>
    requires bs != []
  {
    if |bs| == 1 then bs[0].keys else AllKeys(bs[..|bs| - 1]) * bs[|bs| - 1].keys
  }

  ghost function DefaultKeys(t: Table, check: string): set<string> {
    var d := DefaultFor(t, check);
    if d.Some? then KeySet(d.value.keys) else {}
  }

  /** The highest severity; the keys by what the list means: an allowlist is what every scope
      permits, ceilings are all of them, and a required list adds to the shipped one. */
  ghost function Combined(t: Table, check: string, bs: seq<Binding>): Option<Binding> {
    if bs == [] then None
    else Some(Binding(Highest(bs),
                      if IsKind(t, check, Allowed) then AllKeys(bs)
                      else if IsKind(t, check, Ceilings) then AnyKeys(bs)
                      else DefaultKeys(t, check) + AnyKeys(bs)))
  }

  ghost function Merged(t: Table, scopes: seq<Option<Policy>>, check: string): Option<Binding> {
    Combined(t, check, Said(scopes, check))
  }

  /** One more scope is taken over by the code's two steps: a start, and the stricter of the two. */
  lemma CombineMore(t: Table, check: string, bs: seq<Binding>, b: Binding)
    ensures var allowlist := IsKind(t, check, Allowed);
            var start := if bs != [] then Combined(t, check, bs).value
                         else Binding(OFF, if allowlist || IsKind(t, check, Ceilings) then b.keys else DefaultKeys(t, check));
            Combined(t, check, bs + [b])
            == Some(Binding(MaxOf(start.severity, b.severity), if allowlist then start.keys * b.keys else start.keys + b.keys))
  {
    var more := bs + [b];
    assert more[..|bs|] == bs && more[|bs|] == b;
    if bs == [] {
      assert more == [b];
      assert Highest(more) == MaxOf(OFF, b.severity);
      assert AnyKeys(more) == b.keys == b.keys + b.keys;
      assert AllKeys(more) == b.keys == b.keys * b.keys;
    } else {
      assert AllKeys(more) == AllKeys(bs) * b.keys;
      assert DefaultKeys(t, check) + (AnyKeys(bs) + b.keys) == DefaultKeys(t, check) + AnyKeys(bs) + b.keys;
    }
  }

  /** What is merged once the scopes before the `i`-th, and the checks in `done` of it, are in. */
  ghost predicate MergedSoFar(t: Table, scopes: seq<Option<Policy>>, i: nat, done: set<string>, out: Policy)
    requires i <= |scopes|
  {
    forall check :: Bound(out, check) == Merged(t, scopes[..if i < |scopes| && check in done then i + 1 else i], check)
  }

  // Where a merged setting comes from.

  ghost predicate Configures(scopes: seq<Option<Policy>>, i: int, check: string) {
    0 <= i < |scopes| && scopes[i].Some? && check in scopes[i].value
  }

  /** The first of the scopes that give a check this severity. */
  ghost predicate FirstToGive(scopes: seq<Option<Policy>>, i: int, check: string, severity: Severity) {
    && Configures(scopes, i, check) && scopes[i].value[check].severity == severity
    && forall j :: 0 <= j < i && Configures(scopes, j, check) ==> scopes[j].value[check].severity != severity
  }

  /** No scope asks for more, and the origin is that of the first scope that asks for as much.
      What is off was asked for by nobody in particular. */
  ghost predicate Originates(scopes: seq<Option<Policy>>, n: nat, check: string, s: Setting) {
    && (forall j :: 0 <= j < n && Configures(scopes, j, check) ==> scopes[j].value[check].severity <= s.severity)
    && if s.severity == OFF then s.file == "" && s.line == 0
       else exists i :: i < n && FirstToGive(scopes, i, check, s.severity) && SameOrigin(s, scopes[i].value[check])
  }

  predicate SameOrigin(a: Setting, b: Setting) {
    a.file == b.file && a.line == b.line
  }

  /** Every merged check has its origin, and a check that is not merged is in no scope so far. */
  ghost predicate OriginSoFar(scopes: seq<Option<Policy>>, n: nat, check: string, out: Policy) {
    if check in out then Originates(scopes, n, check, out[check])
    else forall j :: 0 <= j < n ==> !Configures(scopes, j, check)
  }

  ghost predicate OriginsSoFar(scopes: seq<Option<Policy>>, i: nat, done: set<string>, out: Policy) {
    forall check :: OriginIn(scopes, i, done, check, out)
  }

  ghost predicate OriginIn(scopes: seq<Option<Policy>>, i: nat, done: set<string>, check: string, out: Policy) {
    OriginSoFar(scopes, if check in done then i + 1 else i, check, out)
  }

  /** One more scope that says nothing of a check leaves its origin. */
  lemma OriginStands(scopes: seq<Option<Policy>>, i: nat, check: string, out: Policy)
    requires OriginSoFar(scopes, i, check, out) && !Configures(scopes, i, check)
    ensures OriginSoFar(scopes, i + 1, check, out)
  {
    hide FirstToGive, SameOrigin;
  }

  /** The stricter of what is merged and one more scope has the origin it should. */
  lemma OriginFollows(scopes: seq<Option<Policy>>, i: nat, check: string, out: Policy, current: Setting, merged: Setting)
    requires Configures(scopes, i, check) && OriginSoFar(scopes, i, check, out)
    requires if check in out then current == out[check] else current.severity == OFF && current.file == "" && current.line == 0
    requires merged.severity == MaxOf(current.severity, scopes[i].value[check].severity)
    requires SameOrigin(merged, if merged.severity > current.severity then scopes[i].value[check] else current)
    ensures Originates(scopes, i + 1, check, merged)
  {
    if merged.severity > current.severity {
      assert FirstToGive(scopes, i, check, merged.severity);
    } else if merged.severity != OFF {
      var k :| k < i && FirstToGive(scopes, k, check, current.severity) && SameOrigin(current, scopes[k].value[check]);
      assert SameOrigin(merged, scopes[k].value[check]);
    }
  }

  lemma OriginsMore(scopes: seq<Option<Policy>>, i: nat, done: set<string>, out: Policy, check: string, merged: Setting)
    requires OriginsSoFar(scopes, i, done, out) && Originates(scopes, i + 1, check, merged)
    ensures OriginsSoFar(scopes, i, done + {check}, out[check := merged])
  {
    hide Originates, Configures;
    var r := out[check := merged];
    forall c ensures OriginIn(scopes, i, done + {check}, c, r) {
      assert OriginIn(scopes, i, done, c, out);
    }
  }

  lemma OriginsDone(scopes: seq<Option<Policy>>, i: nat, done: set<string>, out: Policy)
    requires i < |scopes| && OriginsSoFar(scopes, i, done, out)
    requires done == if scopes[i].Some? then scopes[i].value.Keys else {}
    ensures OriginsSoFar(scopes, i + 1, {}, out)
  {
    hide OriginSoFar;
    var next, none: set<string> := i + 1, {};
    forall check ensures OriginIn(scopes, next, none, check, out) {
      assert OriginIn(scopes, i, done, check, out);
      if check !in done {
        OriginStands(scopes, i, check, out);
      }
    }
  }

  lemma NoOrigins(scopes: seq<Option<Policy>>)
    ensures OriginsSoFar(scopes, 0, {}, map[])
  {
  }

  lemma EveryOrigin(scopes: seq<Option<Policy>>, out: Policy)
    requires OriginsSoFar(scopes, |scopes|, {}, out)
    ensures forall check :: check in out ==> Originates(scopes, |scopes|, check, out[check])
  {
    hide Originates;
    forall check | check in out ensures Originates(scopes, |scopes|, check, out[check]) {
      assert OriginIn(scopes, |scopes|, {}, check, out);
    }
  }

  method Merge(t: Table, scopes: seq<Option<Policy>>) returns (out: Policy)
    ensures forall check :: Bound(out, check) == Merged(t, scopes, check)
    ensures forall check :: check in out ==> Originates(scopes, |scopes|, check, out[check])
  {
    out := map[];
    NothingMerged(t, scopes);
    NoOrigins(scopes);
    hide MergedSoFar, Merged, OriginsSoFar, Originates;
    for i := 0 to |scopes|
      invariant MergedSoFar(t, scopes, i, {}, out)
      invariant OriginsSoFar(scopes, i, {}, out)
    {
      if scopes[i].None? {
        ScopeDone(t, scopes, i, {}, out);
        OriginsDone(scopes, i, {}, out);
        continue;
      }
      var scope := scopes[i].value;
      var todo := scope.Keys;
      assert scope.Keys - todo == {};
      while todo != {}
        invariant todo <= scope.Keys
        invariant MergedSoFar(t, scopes, i, scope.Keys - todo, out)
        invariant OriginsSoFar(scopes, i, scope.Keys - todo, out)
        decreases |todo|
      {
        var check := Pick(todo);
        out := MergeCheck(t, scope, out, check, scopes, i, scope.Keys - todo);
        assert scope.Keys - todo + {check} == scope.Keys - (todo - {check});
        todo := todo - {check};
      }
      assert scope.Keys - todo == scope.Keys;
      ScopeDone(t, scopes, i, scope.Keys, out);
      OriginsDone(scopes, i, scope.Keys, out);
    }
    EverythingMerged(t, scopes, out);
    EveryOrigin(scopes, out);
  }

  lemma NothingMerged(t: Table, scopes: seq<Option<Policy>>)
    ensures MergedSoFar(t, scopes, 0, {}, map[])
  {
  }

  lemma EverythingMerged(t: Table, scopes: seq<Option<Policy>>, out: Policy)
    requires MergedSoFar(t, scopes, |scopes|, {}, out)
    ensures forall check :: Bound(out, check) == Merged(t, scopes, check)
  {
    assert scopes[..|scopes|] == scopes;
  }

  /** Takes one check of one scope into what is merged already. */
  method MergeCheck(t: Table, scope: Policy, out: Policy, check: string,
                    ghost scopes: seq<Option<Policy>>, ghost i: nat, ghost done: set<string>)
    returns (r: Policy)
    requires i < |scopes| && scopes[i] == Some(scope) && check in scope && check !in done
    requires MergedSoFar(t, scopes, i, done, out) && OriginsSoFar(scopes, i, done, out)
    ensures MergedSoFar(t, scopes, i, done + {check}, r) && OriginsSoFar(scopes, i, done + {check}, r)
  {
    hide OriginsSoFar, Originates;
    assert Bound(out, check) == Merged(t, scopes[..i], check);
    assert KeySet([]) == {};
    var incoming := scope[check];
    var current;
    if check in out {
      current := out[check];
    } else {
      current := Setting(OFF, [], "", 0);
      var d := DefaultFor(t, check);
      if d.Some? {
        current := current.(keys := d.value.keys);
      }
      if IsKind(t, check, Allowed) || IsKind(t, check, Ceilings) {
        current := current.(keys := incoming.keys);
      }
    }
    var merged := Strictest(current, incoming, IsKind(t, check, Allowed));
    r := out[check := merged];
    SaidMore(scopes, i, check);
    CombineMore(t, check, Said(scopes[..i], check), BindingOf(incoming));
    CheckDone(t, scopes, i, done, out, check, merged);
    OriginBefore(scopes, i, done, out, check);
    OriginFollows(scopes, i, check, out, current, merged);
    OriginsMore(scopes, i, done, out, check, merged);
  }

  lemma OriginBefore(scopes: seq<Option<Policy>>, i: nat, done: set<string>, out: Policy, check: string)
    requires OriginsSoFar(scopes, i, done, out) && check !in done
    ensures OriginSoFar(scopes, i, check, out)
  {
    assert OriginIn(scopes, i, done, check, out);
  }

  lemma CheckDone(t: Table, scopes: seq<Option<Policy>>, i: nat, done: set<string>, out: Policy, check: string, merged: Setting)
    requires i < |scopes| && MergedSoFar(t, scopes, i, done, out)
    requires Some(BindingOf(merged)) == Merged(t, scopes[..i + 1], check)
    ensures MergedSoFar(t, scopes, i, done + {check}, out[check := merged])
  {
    var r := out[check := merged];
    hide Merged;
    forall c ensures Bound(r, c) == Merged(t, scopes[..if c in done + {check} then i + 1 else i], c) {
      assert c != check ==> Bound(r, c) == Bound(out, c);
    }
  }

  lemma ScopeDone(t: Table, scopes: seq<Option<Policy>>, i: nat, done: set<string>, out: Policy)
    requires i < |scopes| && MergedSoFar(t, scopes, i, done, out)
    requires done == if scopes[i].Some? then scopes[i].value.Keys else {}
    ensures MergedSoFar(t, scopes, i + 1, {}, out)
  {
    hide Bound, Combined;
    forall check ensures Bound(out, check) == Merged(t, scopes[..i + 1], check) {
      if check !in done {
        SaidMore(scopes, i, check);
        assert Said(scopes[..i + 1], check) == Said(scopes[..i], check);
      }
    }
    hide Merged;
  }

  lemma SaidMore(scopes: seq<Option<Policy>>, i: nat, check: string)
    requires i < |scopes|
    ensures Said(scopes[..i + 1], check)
         == Said(scopes[..i], check) + if scopes[i].Some? && check in scopes[i].value then [BindingOf(scopes[i].value[check])] else []
  {
    assert scopes[..i + 1][..i] == scopes[..i];
  }

  // Order, repetition and nesting.

  lemma {:induction false} HighestIs(bs: seq<Binding>)
    ensures forall b :: b in bs ==> b.severity <= Highest(bs)
    ensures Highest(bs) == OFF || exists b :: b in bs && b.severity == Highest(bs)
  {
    if bs != [] {
      var n := |bs| - 1;
      HighestIs(bs[..n]);
      assert bs == bs[..n] + [bs[n]];
      if Highest(bs) != OFF {
        if Highest(bs) == bs[n].severity {
          assert bs[n] in bs;
        } else {
          var b :| b in bs[..n] && b.severity == Highest(bs[..n]);
          assert b in bs;
        }
      }
    }
  }

  lemma {:induction false} AnyKeysAre(bs: seq<Binding>, k: string)
    ensures k in AnyKeys(bs) <==> exists b :: b in bs && k in b.keys
  {
    if bs != [] {
      var n := |bs| - 1;
      AnyKeysAre(bs[..n], k);
      assert bs == bs[..n] + [bs[n]];
      assert bs[n] in bs;
    }
  }

  lemma {:induction false} AllKeysAre(bs: seq<Binding>, k: string)
    requires bs != []
    ensures k in AllKeys(bs) <==> forall b :: b in bs ==> k in b.keys
  {
    if |bs| > 1 {
      var n := |bs| - 1;
      AllKeysAre(bs[..n], k);
      assert bs == bs[..n] + [bs[n]];
      assert bs[n] in bs;
    }
  }

  ghost predicate SameBindings(a: seq<Binding>, b: seq<Binding>) {
    forall x :: x in a <==> x in b
  }

  lemma SomeIn(bs: seq<Binding>)
    ensures bs != [] ==> exists b :: b in bs
  {
    if bs != [] {
      assert bs[0] in bs;
    }
  }

  lemma HighestUnordered(a: seq<Binding>, b: seq<Binding>)
    requires SameBindings(a, b)
    ensures Highest(a) <= Highest(b)
  {
    HighestIs(a);
    HighestIs(b);
    if Highest(a) != OFF {
      var x :| x in a && x.severity == Highest(a);
      assert x in b;
    }
  }

  /** What settings combine to depends on which there are: not on their order or number. */
  lemma CombinedUnordered(t: Table, check: string, a: seq<Binding>, b: seq<Binding>)
    requires SameBindings(a, b)
    ensures Combined(t, check, a) == Combined(t, check, b)
  {
    if a == [] {
      SomeIn(b);
    } else {
      assert a[0] in a;
      HighestUnordered(a, b);
      HighestUnordered(b, a);
      forall k ensures (k in AnyKeys(a) <==> k in AnyKeys(b)) && (k in AllKeys(a) <==> k in AllKeys(b)) {
        AnyKeysAre(a, k);
        AnyKeysAre(b, k);
        AllKeysAre(a, k);
        AllKeysAre(b, k);
      }
      assert AnyKeys(a) == AnyKeys(b) && AllKeys(a) == AllKeys(b);
    }
  }

  lemma {:induction false} SaidBy(scopes: seq<Option<Policy>>, check: string, b: Binding)
    ensures b in Said(scopes, check) <==> exists s :: s in scopes && Says(s, check, b)
  {
    if scopes != [] {
      var n := |scopes| - 1;
      SaidBy(scopes[..n], check, b);
      assert scopes == scopes[..n] + [scopes[n]];
      assert scopes[n] in scopes;
    }
  }

  ghost predicate Says(s: Option<Policy>, check: string, b: Binding) {
    s.Some? && Bound(s.value, check) == Some(b)
  }

  lemma SaidIn(scopes: seq<Option<Policy>>, check: string, b: Binding)
    ensures b in Said(scopes, check) <==> exists i :: Configures(scopes, i, check) && BindingOf(scopes[i].value[check]) == b
  {
    SaidBy(scopes, check, b);
    hide Said, BindingOf;
    if s :| s in scopes && Says(s, check, b) {
      var i :| 0 <= i < |scopes| && scopes[i] == s;
      assert Configures(scopes, i, check);
    }
    if i :| Configures(scopes, i, check) && BindingOf(scopes[i].value[check]) == b {
      assert scopes[i] in scopes && Says(scopes[i], check, b);
    }
  }

  /** A key of a merged setting: one every scope permits, where the list is what may be used; else one
      some scope names, or one that ships with the check, unless the list is of ceilings. */
  ghost predicate MergedKey(t: Table, scopes: seq<Option<Policy>>, check: string, k: string) {
    if check in t && t[check].kind == ListKind.Allowed then forall i :: Configures(scopes, i, check) ==> k in scopes[i].value[check].keys
    else
      || (exists i :: Configures(scopes, i, check) && k in scopes[i].value[check].keys)
      || (check in t && t[check].kind != ListKind.Ceilings && !t[check].fixed && k in t[check].keys)
  }

  /** A check is merged if some scope configures it, at the highest severity any does, with these keys. */
  lemma MergedExactly(t: Table, scopes: seq<Option<Policy>>, check: string, k: string)
    ensures Merged(t, scopes, check).Some? <==> exists i :: Configures(scopes, i, check)
    ensures Merged(t, scopes, check).Some? ==>
              var m := Merged(t, scopes, check).value;
              && (forall i :: Configures(scopes, i, check) ==> scopes[i].value[check].severity <= m.severity)
              && (m.severity == OFF || exists i :: Configures(scopes, i, check) && scopes[i].value[check].severity == m.severity)
              && (k in m.keys <==> MergedKey(t, scopes, check, k))
  {
    var bs := Said(scopes, check);
    forall i | Configures(scopes, i, check) ensures BindingOf(scopes[i].value[check]) in bs {
      SaidIn(scopes, check, BindingOf(scopes[i].value[check]));
    }
    forall b | b in bs ensures exists i :: Configures(scopes, i, check) && BindingOf(scopes[i].value[check]) == b {
      SaidIn(scopes, check, b);
    }
    assert bs != [] ==> bs[0] in bs;
    hide Said, Highest, AnyKeys, AllKeys, Configures;
    if bs != [] {
      HighestIs(bs);
      AnyKeysAre(bs, k);
      AllKeysAre(bs, k);
    }
  }

  /** Scopes in any order, repeated or not, merge to the same policy: the merge is commutative
      and idempotent, and a scope that is absent changes nothing. */
  lemma MergeUnordered(t: Table, a: seq<Option<Policy>>, b: seq<Option<Policy>>, check: string)
    requires forall s :: s != None ==> (s in a <==> s in b)
    ensures Merged(t, a, check) == Merged(t, b, check)
  {
    forall x ensures x in Said(a, check) <==> x in Said(b, check) {
      SaidBy(a, check, x);
      SaidBy(b, check, x);
    }
    CombinedUnordered(t, check, Said(a, check), Said(b, check));
  }

  lemma {:induction false} SaidConcat(a: seq<Option<Policy>>, b: seq<Option<Policy>>, check: string)
    ensures Said(a + b, check) == Said(a, check) + Said(b, check)
    decreases |b|
  {
    if b == [] {
      assert a + b == a;
    } else {
      var n := |b| - 1;
      SaidConcat(a, b[..n], check);
      assert (a + b)[..|a + b| - 1] == a + b[..n];
      var last := b[n];
      Assoc(Said(a, check), Said(b[..n], check), if last.Some? && check in last.value then [BindingOf(last.value[check])] else []);
      hide BindingOf;
    }
  }

  lemma {:induction false} AnyKeysConcat(a: seq<Binding>, b: seq<Binding>)
    ensures AnyKeys(a + b) == AnyKeys(a) + AnyKeys(b)
    ensures Highest(a + b) == MaxOf(Highest(a), Highest(b))
    ensures a != [] && b != [] ==> AllKeys(a + b) == AllKeys(a) * AllKeys(b)
    decreases |b|
  {
    if b == [] {
      assert a + b == a;
    } else {
      var n := |b| - 1;
      AnyKeysConcat(a, b[..n]);
      assert (a + b)[..|a + b| - 1] == a + b[..n];
    }
  }

  /** Merging some scopes first, and the result with the others, is merging them all. */
  lemma MergeNests(t: Table, a: seq<Option<Policy>>, first: Policy, b: seq<Option<Policy>>, check: string)
    requires forall c :: Bound(first, c) == Merged(t, a, c)
    ensures Merged(t, [Some(first)] + b, check) == Merged(t, a + b, check)
  {
    SaidConcat(a, b, check);
    SaidConcat([Some(first)], b, check);
    assert Bound(first, check) == Merged(t, a, check);
    var sa, sb := Said(a, check), Said(b, check);
    assert [Some(first)][..0] == [];
    if sa == [] {
      assert Said([Some(first)], check) == [];
      assert [] + sb == sb;
    } else {
      var x := Combined(t, check, sa).value;
      assert Said([Some(first)], check) == [x];
      hide Said, Combined, Bound;
      CombinedNests(t, check, sa, x, sb);
    }
  }

  lemma CombinedNests(t: Table, check: string, a: seq<Binding>, x: Binding, b: seq<Binding>)
    requires a != [] && Combined(t, check, a) == Some(x)
    ensures Combined(t, check, [x] + b) == Combined(t, check, a + b)
  {
    AnyKeysConcat(a, b);
    AnyKeysConcat([x], b);
    assert [x][..0] == [];
    assert AnyKeys([x]) == x.keys && Highest([x]) == x.severity && AllKeys([x]) == x.keys;
    assert b == [] ==> [x] + b == [x] && a + b == a;
    hide AnyKeys, Highest, AllKeys;
    var d := DefaultKeys(t, check);
    assert d + ((d + AnyKeys(a)) + AnyKeys(b)) == d + (AnyKeys(a) + AnyKeys(b));
  }

  // No scope can loosen another.

  /** The severity a check runs at once some scopes are merged. */
  ghost function SeverityUnder(t: Table, scopes: seq<Option<Policy>>, check: string): Severity {
    var m := Merged(t, scopes, check);
    if m.Some? then m.value.severity else For(t, None, check).severity
  }

  /** A scope lowers a severity exactly where it is the first to configure the check, and asks
      for less than the shipped default. */
  lemma LowersExactly(t: Table, scopes: seq<Option<Policy>>, scope: Policy, check: string)
    ensures SeverityUnder(t, scopes + [Some(scope)], check) < SeverityUnder(t, scopes, check)
       <==> && check in scope && (forall i :: !Configures(scopes, i, check))
            && scope[check].severity < (if check in t && !t[check].fixed then t[check].severity else ERROR)
  {
    var more := scopes + [Some(scope)];
    assert more[..|scopes|] == scopes;
    var bs := Said(scopes, check);
    if check in scope {
      var b := BindingOf(scope[check]);
      assert Said(more, check) == bs + [b];
      AnyKeysConcat(bs, [b]);
      assert Highest([b]) == b.severity by {
        assert [b][..0] == [];
      }
    } else {
      assert Said(more, check) == bs;
    }
    MergedExactly(t, scopes, check, "");
    hide Highest, AnyKeys, AllKeys, Configures;
  }

  /** Once a check is configured, a scope can only raise it: no severity falls, no required key
      and no ceiling is dropped, and nothing more is permitted. */
  lemma OnlyStricter(t: Table, scopes: seq<Option<Policy>>, scope: Option<Policy>, check: string)
    requires Said(scopes, check) != []
    ensures var before := Merged(t, scopes, check).value; var after := Merged(t, scopes + [scope], check);
            && after.Some? && before.severity <= after.value.severity
            && (if IsKind(t, check, Allowed) then after.value.keys <= before.keys else before.keys <= after.value.keys)
  {
    assert (scopes + [scope])[..|scopes|] == scopes;
    var bs := Said(scopes, check);
    if scope.Some? && check in scope.value {
      CombineMore(t, check, bs, BindingOf(scope.value[check]));
    } else {
      assert Said(scopes + [scope], check) == bs;
    }
  }
}
