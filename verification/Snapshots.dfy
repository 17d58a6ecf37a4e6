/** The order a snapshot of the tracked alerts is given in, and how far it is fixed. */
module Snapshots {
  import opened Options
  import opened AlertModel
  import opened Orders

  /** By fingerprint, and by the rendered label set where two fingerprints agree. */
  function Rank(labelKey: Labels -> string): Alert -> seq<int> {
    (a: Alert) => [a.fingerprint] + Codes(labelKey(a.labels))
  }

  /** A snapshot of a state: its alerts, each once, in order. */
  ghost predicate Shows(alerts: seq<Alert>, m: Model, labelKey: Labels -> string) {
    Lists(alerts, m) && Ordered(Rank(labelKey), alerts)
  }

  /** Two tracked label sets that neither the fingerprint nor the rendering tells apart. */
  ghost predicate Tied(m: Model, hash: Labels -> Fingerprint, labelKey: Labels -> string, k: Labels, l: Labels) {
    k in m && l in m && k != l && hash(k) == hash(l) && labelKey(k) == labelKey(l)
  }

  ghost predicate NoTies(m: Model, hash: Labels -> Fingerprint, labelKey: Labels -> string) {
    forall k, l :: !Tied(m, hash, labelKey, k, l)
  }

  /** Every entry is of its own label set. */
  ghost predicate AllGenuine(m: Model, hash: Labels -> Fingerprint) {
    forall l :: l in m ==> Genuine(m[l], l, hash)
  }

  lemma NextKeepsGenuine(m: Model, rows: map<Labels, real>, hash: Labels -> Fingerprint, now: Time, c: Config)
    requires AllGenuine(m, hash)
    ensures AllGenuine(Next(m, rows, hash, now, c), hash)
  {
    forall l | l in Next(m, rows, hash, now, c) ensures Genuine(Next(m, rows, hash, now, c)[l], l, hash) {
      StepIsGenuine(Get(m, l), Get(rows, l), l, hash, now, c);
    }
    hide Step;
  }

  lemma RankExactly(labelKey: Labels -> string, a: Alert, b: Alert)
    ensures Rank(labelKey)(a) == Rank(labelKey)(b) <==> a.fingerprint == b.fingerprint && labelKey(a.labels) == labelKey(b.labels)
  {
    var x, y := Rank(labelKey)(a), Rank(labelKey)(b);
    assert x[0] == a.fingerprint && x[1..] == Codes(labelKey(a.labels));
    assert y[0] == b.fingerprint && y[1..] == Codes(labelKey(b.labels));
    if x == y {
      CodesInjective(labelKey(a.labels), labelKey(b.labels));
    }
  }

  lemma ListedIn(alerts: seq<Alert>, m: Model, a: Alert)
    requires Lists(alerts, m) && a in alerts
    ensures a.labels in m && m[a.labels].alert == a
  {
  }

  /** Fingerprints ascend, and where two agree no rendering stands behind one it goes before. */
  lemma ShowsInOrder(alerts: seq<Alert>, m: Model, labelKey: Labels -> string, i: nat, j: nat)
    requires Shows(alerts, m, labelKey) && i < j < |alerts|
    ensures || alerts[i].fingerprint < alerts[j].fingerprint
            || (alerts[i].fingerprint == alerts[j].fingerprint && !Alphabetical(labelKey(alerts[j].labels), labelKey(alerts[i].labels)))
  {
    var a, b := alerts[i], alerts[j];
    var x, y := Rank(labelKey)(a), Rank(labelKey)(b);
    assert x[0] == a.fingerprint && x[1..] == Codes(labelKey(a.labels));
    assert y[0] == b.fingerprint && y[1..] == Codes(labelKey(b.labels));
    LessIsAlphabetical(labelKey(b.labels), labelKey(a.labels));
  }

  /** However a list of the alerts is rearranged, it lists the same state. */
  lemma PermutedLists(alerts: seq<Alert>, sorted: seq<Alert>, m: Model)
    requires Lists(alerts, m) && multiset(alerts) == multiset(sorted)
    ensures Lists(sorted, m)
  {
    forall a ensures a in sorted <==> a in alerts {
      assert a in sorted <==> a in multiset(sorted);
      assert a in alerts <==> a in multiset(alerts);
    }
    forall i | 0 <= i < |sorted| ensures sorted[i].labels in m && m[sorted[i].labels].alert == sorted[i] {
      assert sorted[i] in sorted;
      ListedIn(alerts, m, sorted[i]);
    }
    forall i, j | 0 <= i < j < |sorted| ensures sorted[i].labels != sorted[j].labels {
      if sorted[i].labels == sorted[j].labels {
        assert sorted[i] == sorted[j];
        OnceIn(alerts, sorted[i]);
        TwiceIn(sorted, i, j);
        assert false;
      }
    }
  }

  lemma OnceIn(alerts: seq<Alert>, a: Alert)
    requires forall i, j :: 0 <= i < j < |alerts| ==> alerts[i].labels != alerts[j].labels
    ensures multiset(alerts)[a] <= 1
  {
    if a in alerts {
      var i :| 0 <= i < |alerts| && alerts[i] == a;
      assert alerts == alerts[..i] + [a] + alerts[i + 1..];
      assert a !in alerts[..i] && a !in alerts[i + 1..];
    }
  }

  lemma TwiceIn(alerts: seq<Alert>, i: nat, j: nat)
    requires i < j < |alerts| && alerts[i] == alerts[j]
    ensures multiset(alerts)[alerts[i]] >= 2
  {
    assert alerts == alerts[..i] + [alerts[i]] + alerts[i + 1..j] + [alerts[j]] + alerts[j + 1..];
  }

  /** A caller sees one sequence for one state if and only if nothing in it is tied. */
  lemma OneSequenceExactly(alerts: seq<Alert>, m: Model, hash: Labels -> Fingerprint, labelKey: Labels -> string)
    requires Shows(alerts, m, labelKey) && AllGenuine(m, hash)
    ensures (forall others :: Shows(others, m, labelKey) ==> others == alerts) <==> NoTies(m, hash, labelKey)
  {
    hide Shows, Genuine, Rank;
    if NoTies(m, hash, labelKey) {
      forall others | Shows(others, m, labelKey) ensures others == alerts {
        OneUntied(alerts, others, m, hash, labelKey);
      }
    } else {
      var k, l :| Tied(m, hash, labelKey, k, l);
      var others := Swapped(alerts, m, hash, labelKey, k, l);
    }
  }

  lemma OneUntied(alerts: seq<Alert>, others: seq<Alert>, m: Model, hash: Labels -> Fingerprint, labelKey: Labels -> string)
    requires Shows(alerts, m, labelKey) && Shows(others, m, labelKey)
    requires NoTies(m, hash, labelKey) && AllGenuine(m, hash)
    ensures others == alerts
  {
    hide Rank, Genuine, NoTies;
    UntiedAscends(alerts, m, hash, labelKey);
    UntiedAscends(others, m, hash, labelKey);
    SortedUnique(Rank(labelKey), others, alerts, set a | a in alerts);
  }

  lemma UntiedAscends(alerts: seq<Alert>, m: Model, hash: Labels -> Fingerprint, labelKey: Labels -> string)
    requires Shows(alerts, m, labelKey) && NoTies(m, hash, labelKey) && AllGenuine(m, hash)
    ensures Ascending(Rank(labelKey), alerts)
  {
    hide Rank;
    forall i, j | 0 <= i < j < |alerts| ensures Rank(labelKey)(alerts[i]) != Rank(labelKey)(alerts[j]) {
      RankExactly(labelKey, alerts[i], alerts[j]);
      assert !Tied(m, hash, labelKey, alerts[i].labels, alerts[j].labels);
    }
    AscendingExactly(Rank(labelKey), alerts);
  }

  /** Two tied alerts change places and the order holds as before. */
  lemma Swapped(alerts: seq<Alert>, m: Model, hash: Labels -> Fingerprint, labelKey: Labels -> string, k: Labels, l: Labels)
    returns (others: seq<Alert>)
    requires Shows(alerts, m, labelKey) && AllGenuine(m, hash) && Tied(m, hash, labelKey, k, l)
    ensures Shows(others, m, labelKey) && others != alerts
  {
    hide Rank;
    var i :| 0 <= i < |alerts| && alerts[i] == m[k].alert;
    var j :| 0 <= j < |alerts| && alerts[j] == m[l].alert;
    assert Genuine(m[k], k, hash) && Genuine(m[l], l, hash);
    others := alerts[i := alerts[j]][j := alerts[i]];
    RankExactly(labelKey, alerts[i], alerts[j]);
    SwapLists(alerts, m, i, j);
    SwapOrdered(Rank(labelKey), alerts, i, j);
    hide Lists, Ordered;
  }

  lemma SwapLists(alerts: seq<Alert>, m: Model, i: nat, j: nat)
    requires i < |alerts| && j < |alerts| && Lists(alerts, m)
    ensures Lists(alerts[i := alerts[j]][j := alerts[i]], m)
  {
    assert multiset(alerts[i := alerts[j]][j := alerts[i]]) == multiset(alerts);
    PermutedLists(alerts, alerts[i := alerts[j]][j := alerts[i]], m);
  }

  // The rendering itself.

  /** The pairs of the first `n` keys as the tie-break renders them. */
  function Joined(keys: seq<string>, pairs: map<string, string>, n: nat): string
    requires n <= |keys| && forall k :: k in keys ==> k in pairs
  {
    if n == 0 then "" else Joined(keys, pairs, n - 1) + (if n > 1 then ", " else "") + keys[n - 1] + "=" + pairs[keys[n - 1]]
  }

  ghost predicate Renders(text: string, labels: Labels) {
    exists keys :: Ascending(Codes, keys) && Enumerates(keys, labels.pairs.Keys) && text == Joined(keys, labels.pairs, |keys|)
  }

  method LabelKey(labels: Labels) returns (text: string)
    ensures Renders(text, labels)
  {
    hide Ascending;
    var keys := Names(labels.pairs.Keys);
    text := "";
    for i := 0 to |keys|
      invariant forall k :: k in keys ==> k in labels.pairs
      invariant text == Joined(keys, labels.pairs, i)
    {
      if i > 0 {
        text := text + ", ";
      }
      text := text + keys[i] + "=" + labels.pairs[keys[i]];
    }
  }

  /** A label set has one rendering. */
  lemma OneRendering(a: string, b: string, labels: Labels)
    requires Renders(a, labels) && Renders(b, labels)
    ensures a == b
  {
    var x :| Ascending(Codes, x) && Enumerates(x, labels.pairs.Keys) && a == Joined(x, labels.pairs, |x|);
    var y :| Ascending(Codes, y) && Enumerates(y, labels.pairs.Keys) && b == Joined(y, labels.pairs, |y|);
    SortedUnique(Codes, x, y, labels.pairs.Keys);
  }

  /** Two label sets can have the same one: a value may spell what separates two pairs. */
  lemma RenderingCollides(k: string, l: string, v: string, w: string) returns (text: string)
    requires Less(Codes(k), Codes(l))
    ensures Renders(text, Labels(map[k := v + (", " + (l + "=" + w))])) && Renders(text, Labels(map[k := v, l := w]))
    ensures Labels(map[k := v + (", " + (l + "=" + w))]) != Labels(map[k := v, l := w])
  {
    hide Codes, Less;
    var a, b := map[k := v + (", " + (l + "=" + w))], map[k := v, l := w];
    assert k != l by { LessTotal(Codes(k), Codes(l)); }
    text := k + "=" + a[k];
    JoinedFirst([k], a);
    JoinedFirst([k, l], b);
    Assoc(k + "=", v, ", " + (l + "=" + w));
    assert Joined([k, l], b, 2) == text;
    assert Enumerates([k], a.Keys) && Enumerates([k, l], b.Keys);
    assert Ascending(Codes, [k]) && Ascending(Codes, [k, l]);
    hide Joined, Ascending, Enumerates;
    assert Renders(text, Labels(a)) && Renders(text, Labels(b));
    assert l in b && l !in a;
  }

  lemma JoinedFirst(keys: seq<string>, pairs: map<string, string>)
    requires keys != [] && forall k :: k in keys ==> k in pairs
    ensures Joined(keys, pairs, 1) == keys[0] + "=" + pairs[keys[0]]
  {
    assert Joined(keys, pairs, 0) == "";
  }
}
