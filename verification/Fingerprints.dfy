/** The byte stream an alert's fingerprint is the hash of. The hash itself is not modelled. */
module Fingerprints {
  import opened Machine
  import opened Options
  import opened Orders

  type Byte = x: int | 0 <= x < 256

  /** A Go string is its bytes. */
  type Bytes = seq<Byte>

  /** The low `k` bytes of `n`, lowest first. */
  function LittleEndian(n: nat, k: nat): (r: Bytes)
    ensures |r| == k
  {
    if k == 0 then [] else [n % 256] + LittleEndian(n / 256, k - 1)
  }

  /** A length prefix and the bytes it counts. */
  function Field(s: Bytes): Bytes {
    LittleEndian(|s|, 8) + s
  }

  /** What is written for the keys of `labels` in the order `keys`. */
  function Stream(keys: seq<Bytes>, labels: map<Bytes, Bytes>): Bytes
    requires forall k :: k in keys ==> k in labels
  {
    if keys == [] then [] else Field(keys[0]) + (Field(labels[keys[0]]) + Stream(keys[1..], labels))
  }

  /** The keys of a label map, in byte order. */
  ghost predicate InOrder(keys: seq<Bytes>, labels: map<Bytes, Bytes>) {
    Ascending(Plain, keys) && Enumerates(keys, labels.Keys)
  }

  function Plain(s: Bytes): seq<int> {
    s
  }

  /** Every length fits the eight bytes it is written in, as it does in any Go string. */
  ghost predicate Sized(labels: map<Bytes, Bytes>) {
    forall k :: k in labels ==> |k| < TWO_TO_64 && |labels[k]| < TWO_TO_64
  }

  function Power256(k: nat): (r: nat)
    ensures r > 0
  {
    if k == 0 then 1 else 256 * Power256(k - 1)
  }

  lemma {:induction false} LittleEndianInjective(m: nat, n: nat, k: nat)
    requires m < Power256(k) && n < Power256(k) && LittleEndian(m, k) == LittleEndian(n, k)
    ensures m == n
  {
    if k > 0 {
      var a, b := LittleEndian(m, k), LittleEndian(n, k);
      assert a[0] == m % 256 && b[0] == n % 256;
      assert a[1..] == LittleEndian(m / 256, k - 1) && b[1..] == LittleEndian(n / 256, k - 1);
      LittleEndianInjective(m / 256, n / 256, k - 1);
    }
  }

  /** The i-th byte of a length is its i-th digit to the base 256, lowest first. */
  lemma {:induction false} LittleEndianAt(n: nat, k: nat, i: nat)
    requires i < k
    ensures LittleEndian(n, k)[i] == n / Power256(i) % 256
  {
    if i > 0 {
      LittleEndianAt(n / 256, k - 1, i - 1);
      DivTwice(n, 256, Power256(i - 1));
    }
  }

  /** These bytes are a length, what it counts, and the rest. */
  ghost predicate Begins(s: Bytes, field: Bytes, rest: Bytes) {
    && |s| == 8 + |field| + |rest|
    && (forall i: nat :: i < 8 ==> s[i] == |field| / Power256(i) % 256)
    && s[8..8 + |field|] == field && s[8 + |field|..] == rest
  }

  lemma FieldBegins(field: Bytes, rest: Bytes)
    ensures Begins(Field(field) + rest, field, rest)
  {
    var a := LittleEndian(|field|, 8);
    forall i: nat | i < 8 ensures (Field(field) + rest)[i] == |field| / Power256(i) % 256 {
      LittleEndianAt(|field|, 8, i);
    }
    hide LittleEndian, Power256;
    Assoc(a, field, rest);
    assert (a + (field + rest))[8..8 + |field|] == field;
    assert (a + (field + rest))[8 + |field|..] == rest;
  }

  /** A stream begins with a key behind its length, then its value likewise. */
  lemma StreamBegins(keys: seq<Bytes>, labels: map<Bytes, Bytes>)
    requires keys != [] && (forall k :: k in keys ==> k in labels)
    ensures exists second ::
      && Begins(Stream(keys, labels), keys[0], second)
      && Begins(second, labels[keys[0]], Stream(keys[1..], labels))
  {
    FieldBegins(labels[keys[0]], Stream(keys[1..], labels));
    FieldBegins(keys[0], Field(labels[keys[0]]) + Stream(keys[1..], labels));
    hide Begins, Field;
  }

  /** A length prefix cannot be mistaken for a separator: what follows it starts where it says. */
  lemma FieldPrefixFree(a: Bytes, b: Bytes, x: Bytes, y: Bytes)
    requires |a| < TWO_TO_64 && |b| < TWO_TO_64
    requires Field(a) + x == Field(b) + y
    ensures a == b && x == y
  {
    hide LittleEndian, Power256;
    var la, lb := LittleEndian(|a|, 8), LittleEndian(|b|, 8);
    Assoc(la, a, x);
    Assoc(lb, b, y);
    SameCut(la, a + x, lb, b + y);
    EightBytes();
    LittleEndianInjective(|a|, |b|, 8);
    SameCut(a, x, b, y);
  }

  lemma EightBytes()
    ensures Power256(8) == TWO_TO_64
  {
    assert Power256(8) == 256 * Power256(7) == 65536 * Power256(6) == 16777216 * Power256(5) == 4294967296 * Power256(4);
    assert Power256(4) == 256 * Power256(3) == 65536 * Power256(2) == 16777216 * Power256(1) == 4294967296;
  }

  lemma StreamEmpty(keys: seq<Bytes>, labels: map<Bytes, Bytes>)
    requires forall k :: k in keys ==> k in labels
    ensures Stream(keys, labels) == [] <==> keys == []
  {
    if keys != [] {
      assert |Field(keys[0])| >= 8;
    }
  }

  /** Different label maps are never hashed from the same bytes. */
  lemma {:induction false} StreamInjective(j: seq<Bytes>, k: seq<Bytes>, a: map<Bytes, Bytes>, b: map<Bytes, Bytes>)
    requires Sized(a) && Sized(b)
    requires (forall x :: x in j ==> x in a) && (forall x :: x in k ==> x in b)
    requires Stream(j, a) == Stream(k, b)
    ensures j == k && forall x :: x in j ==> a[x] == b[x]
  {
    hide Field, Stream, Sized;
    StreamEmpty(j, a);
    StreamEmpty(k, b);
    if j != [] && k != [] {
      StreamStep(j, k, a, b);
      StreamInjective(j[1..], k[1..], a, b);
      assert j == [j[0]] + j[1..] && k == [k[0]] + k[1..];
    }
  }

  lemma StreamStep(j: seq<Bytes>, k: seq<Bytes>, a: map<Bytes, Bytes>, b: map<Bytes, Bytes>)
    requires Sized(a) && Sized(b) && j != [] && k != []
    requires (forall x :: x in j ==> x in a) && (forall x :: x in k ==> x in b)
    requires Stream(j, a) == Stream(k, b)
    ensures j[0] == k[0] && a[j[0]] == b[k[0]] && Stream(j[1..], a) == Stream(k[1..], b)
  {
    hide Field;
    var ra, rb := Stream(j[1..], a), Stream(k[1..], b);
    FieldPrefixFree(j[0], k[0], Field(a[j[0]]) + ra, Field(b[k[0]]) + rb);
    FieldPrefixFree(a[j[0]], b[k[0]], ra, rb);
  }

  /** The bytes are those of the label map, its keys in order. */
  ghost predicate Spells(out: Bytes, labels: map<Bytes, Bytes>) {
    exists keys :: InOrder(keys, labels) && out == Stream(keys, labels)
  }

  /** The bytes `fingerprint` writes into its hash. */
  method Encode(labels: map<Bytes, Bytes>) returns (out: Bytes)
    ensures Spells(out, labels)
  {
    var sorted := SortedList(Plain, labels.Keys);
    out := [];
    for i := 0 to |sorted|
      invariant forall k :: k in sorted ==> k in labels
      invariant out + Stream(sorted[i..], labels) == Stream(sorted, labels)
    {
      var k := sorted[i];
      StreamAt(sorted, i, labels);
      hide Stream, Field;
      Assoc(out, Field(k), Field(labels[k]) + Stream(sorted[i + 1..], labels));
      Assoc(out + Field(k), Field(labels[k]), Stream(sorted[i + 1..], labels));
      out := out + Field(k) + Field(labels[k]);
    }
  }

  lemma StreamAt(keys: seq<Bytes>, i: nat, labels: map<Bytes, Bytes>)
    requires i < |keys| && forall k :: k in keys ==> k in labels
    ensures Stream(keys[i..], labels) == Field(keys[i]) + (Field(labels[keys[i]]) + Stream(keys[i + 1..], labels))
  {
    assert keys[i..][1..] == keys[i + 1..];
  }

  /** The stream is a function of the label map, and tells every two label maps apart. */
  lemma EncodesExactly(a: map<Bytes, Bytes>, b: map<Bytes, Bytes>, x: Bytes, y: Bytes)
    requires Sized(a) && Sized(b) && Spells(x, a) && Spells(y, b)
    ensures x == y <==> a == b
  {
    var j :| InOrder(j, a) && x == Stream(j, a);
    var k :| InOrder(k, b) && y == Stream(k, b);
    if a == b {
      SortedUnique(Plain, j, k, a.Keys);
    }
    if x == y {
      StreamInjective(j, k, a, b);
      assert a.Keys == b.Keys;
    }
  }
}
