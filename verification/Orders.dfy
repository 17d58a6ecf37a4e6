/** Byte order of strings, and sorting: what keeps the order a map is iterated in out of a result. */
module Orders {
  import opened Options

  /** Byte order of strings, given as their codes. */
  predicate Less(a: seq<int>, b: seq<int>) {
    b != [] && (a == [] || a[0] < b[0] || (a[0] == b[0] && Less(a[1..], b[1..])))
  }

  lemma {:induction false} LessTotal(a: seq<int>, b: seq<int>)
    ensures Less(a, b) || a == b || Less(b, a)
    ensures !(Less(a, b) && Less(b, a)) && !Less(a, a)
  {
    if a != [] {
      if b != [] && a[0] == b[0] {
        LessTotal(a[1..], b[1..]);
        assert a == [a[0]] + a[1..] && b == [b[0]] + b[1..];
      }
      LessTotal(a[1..], a[1..]);
    }
  }

  lemma {:induction false} LessTransitive(a: seq<int>, b: seq<int>, c: seq<int>)
    requires Less(a, b) && Less(b, c)
    ensures Less(a, c)
  {
    if a != [] && a[0] == b[0] == c[0] {
      LessTransitive(a[1..], b[1..], c[1..]);
    }
  }

  /** Less at the first place they differ, or a proper beginning. */
  ghost predicate FirstDiffers(a: seq<int>, b: seq<int>, k: int) {
    0 <= k <= |a| && k < |b| && a[..k] == b[..k] && (k == |a| || a[k] < b[k])
  }

  lemma HeadsAgree(a: seq<int>, b: seq<int>, k: int)
    ensures FirstDiffers(a, b, k) && k > 0 ==> a != [] && b != [] && a[0] == b[0]
  {
    if FirstDiffers(a, b, k) && k > 0 {
      assert a[..k][0] == a[0] && b[..k][0] == b[0];
    }
  }

  lemma {:induction false} LessExactly(a: seq<int>, b: seq<int>)
    ensures Less(a, b) <==> exists k :: FirstDiffers(a, b, k)
  {
    if a == [] || b == [] || a[0] != b[0] {
      assert FirstDiffers(a, b, 0) <==> Less(a, b);
      forall k ensures FirstDiffers(a, b, k) ==> k == 0 {
        HeadsAgree(a, b, k);
      }
    } else {
      LessExactly(a[1..], b[1..]);
      if k :| FirstDiffers(a[1..], b[1..], k) {
        assert a[..k + 1] == [a[0]] + a[1..][..k] && b[..k + 1] == [b[0]] + b[1..][..k];
        assert FirstDiffers(a, b, k + 1);
      }
      if k :| FirstDiffers(a, b, k) {
        assert a[1..][..k - 1] == a[..k][1..] && b[1..][..k - 1] == b[..k][1..];
        assert FirstDiffers(a[1..], b[1..], k - 1);
      }
    }
  }

  function Codes(s: string): seq<int> {
    seq(|s|, i requires 0 <= i < |s| => s[i] as int)
  }

  lemma CodesInjective(a: string, b: string)
    requires Codes(a) == Codes(b)
    ensures a == b
  {
    assert |a| == |Codes(a)| && |b| == |Codes(b)|;
    forall i | 0 <= i < |a| ensures a[i] == b[i] {
      assert Codes(a)[i] == a[i] as int && Codes(b)[i] == b[i] as int;
    }
  }

  /** Alphabetical, character by character. */
  ghost predicate Alphabetical(a: string, b: string) {
    exists k :: 0 <= k <= |a| && k < |b| && a[..k] == b[..k] && (k == |a| || a[k] < b[k])
  }

  lemma LessIsAlphabetical(a: string, b: string)
    ensures Less(Codes(a), Codes(b)) <==> Alphabetical(a, b)
  {
    LessExactly(Codes(a), Codes(b));
    hide Less;
    if k :| FirstDiffers(Codes(a), Codes(b), k) {
      assert Codes(a)[..k] == Codes(a[..k]) && Codes(b)[..k] == Codes(b[..k]);
      CodesInjective(a[..k], b[..k]);
      assert 0 <= k <= |a| && k < |b| && a[..k] == b[..k] && (k == |a| || a[k] < b[k]);
    }
    if k :| 0 <= k <= |a| && k < |b| && a[..k] == b[..k] && (k == |a| || a[k] < b[k]) {
      assert Codes(a)[..k] == Codes(a[..k]) && Codes(b)[..k] == Codes(b[..k]);
      assert FirstDiffers(Codes(a), Codes(b), k);
    }
  }

  /** No element stands behind one with a greater key. */
  ghost predicate Ordered<T>(key: T -> seq<int>, s: seq<T>) {
    forall i, j :: 0 <= i < j < |s| ==> !Less(key(s[j]), key(s[i]))
  }

  /** Every element stands before those with greater keys, and no two have one key. */
  ghost predicate Ascending<T>(key: T -> seq<int>, s: seq<T>) {
    forall i, j :: 0 <= i < j < |s| ==> Less(key(s[i]), key(s[j]))
  }

  ghost predicate Enumerates<T(!new)>(s: seq<T>, e: set<T>) {
    forall x :: x in s <==> x in e
  }

  lemma AscendingExactly<T>(key: T -> seq<int>, s: seq<T>)
    ensures Ascending(key, s) <==> Ordered(key, s) && forall i, j :: 0 <= i < j < |s| ==> key(s[i]) != key(s[j])
  {
    forall i, j | 0 <= i < j < |s|
      ensures Less(key(s[i]), key(s[j])) <==> !Less(key(s[j]), key(s[i])) && key(s[i]) != key(s[j]) {
      LessTotal(key(s[i]), key(s[j]));
    }
  }

  /** Puts an element where it belongs in a sorted list. */
  method Insert<T>(key: T -> seq<int>, s: seq<T>, x: T) returns (r: seq<T>, ghost at: nat)
    requires Ordered(key, s)
    ensures Ordered(key, r) && at <= |s| && r == s[..at] + [x] + s[at..]
  {
    var i := 0;
    while i < |s| && !Less(key(x), key(s[i]))
      invariant 0 <= i <= |s|
      invariant forall j :: 0 <= j < i ==> !Less(key(x), key(s[j]))
    {
      i := i + 1;
    }
    r, at := s[..i] + [x] + s[i..], i;
    InsertedOrdered(key, s, x, i);
  }

  lemma InsertedOrdered<T>(key: T -> seq<int>, s: seq<T>, x: T, i: nat)
    requires Ordered(key, s) && i <= |s| && (forall j :: 0 <= j < i ==> !Less(key(x), key(s[j])))
    requires i < |s| ==> Less(key(x), key(s[i]))
    ensures Ordered(key, s[..i] + [x] + s[i..])
  {
    forall j | i <= j < |s| ensures !Less(key(s[j]), key(x)) {
      if j > i && Less(key(s[j]), key(x)) {
        LessTransitive(key(s[j]), key(x), key(s[i]));
      }
      LessTotal(key(x), key(s[i]));
    }
  }

  /** Elements with one key may change places. */
  lemma SwapOrdered<T>(key: T -> seq<int>, s: seq<T>, i: nat, j: nat)
    requires i < |s| && j < |s| && Ordered(key, s) && key(s[i]) == key(s[j])
    ensures Ordered(key, s[i := s[j]][j := s[i]])
  {
    hide Less;
    var r := s[i := s[j]][j := s[i]];
    assert forall x :: 0 <= x < |s| ==> key(r[x]) == key(s[x]);
  }

  /** What the standard library's sort promises. */
  method Sort<T>(key: T -> seq<int>, s: seq<T>) returns (r: seq<T>)
    ensures Ordered(key, r) && multiset(r) == multiset(s)
  {
    hide Less;
    r := [];
    for i := 0 to |s|
      invariant Ordered(key, r) && multiset(r) == multiset(s[..i])
    {
      ghost var before, at := r, 0;
      r, at := Insert(key, r, s[i]);
      assert before == before[..at] + before[at..];
      assert s[..i + 1] == s[..i] + [s[i]];
    }
    assert s[..|s|] == s;
  }

  /** The elements of a set, each once and sorted: how an unordered map is gone through. */
  method SortedList<T(==,!new)>(key: T -> seq<int>, e: set<T>) returns (r: seq<T>)
    requires forall x, y :: x in e && y in e && key(x) == key(y) ==> x == y
    ensures Ascending(key, r) && Enumerates(r, e)
  {
    r := [];
    var todo := e;
    while todo != {}
      invariant todo <= e && Ascending(key, r) && Enumerates(r, e - todo)
      decreases |todo|
    {
      var x := Pick(todo);
      AscendingExactly(key, r);
      ghost var before, at := r, 0;
      r, at := Insert(key, r, x);
      InsertedAscends(key, before, at, x);
      todo := todo - {x};
    }
  }

  lemma InsertedAscends<T(!new)>(key: T -> seq<int>, s: seq<T>, at: nat, x: T)
    requires at <= |s| && Ascending(key, s) && Ordered(key, s[..at] + [x] + s[at..])
    requires forall y :: y in s ==> key(y) != key(x)
    ensures Ascending(key, s[..at] + [x] + s[at..])
    ensures forall y :: y in s[..at] + [x] + s[at..] <==> y == x || y in s
  {
    assert s == s[..at] + s[at..];
    InsertedApart(key, s, at, x);
    AscendingExactly(key, s[..at] + [x] + s[at..]);
  }

  lemma InsertedApart<T>(key: T -> seq<int>, s: seq<T>, at: nat, x: T)
    requires at <= |s| && Ascending(key, s) && forall k :: 0 <= k < |s| ==> key(s[k]) != key(x)
    ensures var r := s[..at] + [x] + s[at..]; forall i, j :: 0 <= i < j < |r| ==> key(r[i]) != key(r[j])
  {
    hide Less;
    var r := s[..at] + [x] + s[at..];
    forall i, j | 0 <= i < j < |r| ensures key(r[i]) != key(r[j]) {
      if i != at && j != at {
        var k, l := if i < at then i else i - 1, if j < at then j else j - 1;
        assert r[i] == s[k] && r[j] == s[l];
        LessTotal(key(s[k]), key(s[l]));
      }
    }
  }

  /** Sorting by a key that tells the elements apart leaves nothing to the order they came in. */
  lemma {:induction false} SortedUnique<T(!new)>(key: T -> seq<int>, a: seq<T>, b: seq<T>, e: set<T>)
    requires Ascending(key, a) && Ascending(key, b) && Enumerates(a, e) && Enumerates(b, e)
    ensures a == b
  {
    assert |a| > 0 ==> a[0] in e;
    assert |b| > 0 ==> b[0] in e;
    if a != [] && b != [] {
      SameHead(key, a, b, e);
      WithoutHead(key, a, e);
      WithoutHead(key, b, e);
      SortedUnique(key, a[1..], b[1..], e - {a[0]});
      assert a == [a[0]] + a[1..] && b == [b[0]] + b[1..];
    }
  }

  lemma SameHead<T(!new)>(key: T -> seq<int>, a: seq<T>, b: seq<T>, e: set<T>)
    requires Ascending(key, a) && Ascending(key, b) && Enumerates(a, e) && Enumerates(b, e) && a != [] && b != []
    ensures a[0] == b[0]
  {
    assert a[0] in b && b[0] in a;
    var i :| 0 <= i < |b| && b[i] == a[0];
    var j :| 0 <= j < |a| && a[j] == b[0];
    LessTotal(key(a[0]), key(b[0]));
  }

  lemma WithoutHead<T(!new)>(key: T -> seq<int>, a: seq<T>, e: set<T>)
    requires Ascending(key, a) && Enumerates(a, e) && a != []
    ensures Ascending(key, a[1..]) && Enumerates(a[1..], e - {a[0]})
  {
    forall x | x in a[1..] ensures x != a[0] {
      LessTotal(key(x), key(x));
    }
    forall x | x in e - {a[0]} ensures x in a[1..] {
      assert a == [a[0]] + a[1..];
    }
  }

  /** Drops from a sorted list every name that repeats the one before it. */
  method Compact(s: seq<string>) returns (r: seq<string>)
    requires Ordered(Codes, s)
    ensures Ascending(Codes, r) && forall x :: x in r <==> x in s
  {
    hide Less, Codes;
    r := [];
    for i := 0 to |s|
      invariant Ascending(Codes, r) && forall x :: x in r <==> x in s[..i]
      invariant if i == 0 then r == [] else r != [] && r[|r| - 1] == s[i - 1]
    {
      assert s[..i + 1] == s[..i] + [s[i]];
      if i == 0 || s[i] != s[i - 1] {
        forall k | 0 <= k < |r| ensures Less(Codes(r[k]), Codes(s[i])) {
          FollowsLast(s, i, r, k);
        }
        r := r + [s[i]];
      }
    }
    assert s[..|s|] == s;
  }

  lemma FollowsLast(s: seq<string>, i: nat, r: seq<string>, k: nat)
    requires 0 < i < |s| && Ordered(Codes, s) && s[i] != s[i - 1]
    requires k < |r| && Ascending(Codes, r) && r[|r| - 1] == s[i - 1]
    ensures Less(Codes(r[k]), Codes(s[i]))
  {
    hide Less, Codes;
    LessTotal(Codes(s[i - 1]), Codes(s[i]));
    assert !Less(Codes(s[i]), Codes(s[i - 1]));
    if Codes(s[i - 1]) == Codes(s[i]) {
      CodesInjective(s[i - 1], s[i]);
    }
    if k < |r| - 1 {
      assert Less(Codes(r[k]), Codes(r[|r| - 1]));
      LessTransitive(Codes(r[k]), Codes(s[i - 1]), Codes(s[i]));
    }
  }

  lemma NamesAscend(names: seq<string>, i: nat, j: nat)
    requires Ascending(Codes, names) && i < j < |names|
    ensures Alphabetical(names[i], names[j])
  {
    LessIsAlphabetical(names[i], names[j]);
  }

  /** The names of a set in byte order. */
  method Names(e: set<string>) returns (r: seq<string>)
    ensures Ascending(Codes, r) && Enumerates(r, e)
  {
    forall x, y | x in e && y in e && Codes(x) == Codes(y) ensures x == y {
      CodesInjective(x, y);
    }
    r := SortedList(Codes, e);
  }
}
