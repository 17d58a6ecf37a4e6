/** The machine integers whose width the modelled arithmetic depends on. */
module Machine {
  const TWO_TO_64: int := 0x1_0000_0000_0000_0000
  const MAX_INT64: int := 0x7FFF_FFFF_FFFF_FFFF
  const MIN_INT64: int := -0x8000_0000_0000_0000
  const MAX_UINT64: int := 0xFFFF_FFFF_FFFF_FFFF
  const MAX_INT32: int := 0x7FFF_FFFF

  type uint64 = x: int | 0 <= x < TWO_TO_64
  type int64 = x: int | MIN_INT64 <= x <= MAX_INT64

  /** What an unsigned 64-bit register keeps of `x`. */
  function WrapUnsigned(x: int): uint64 {
    x % TWO_TO_64
  }

  /** What a signed 64-bit register keeps of `x`. */
  function WrapSigned(x: int): int64 {
    (x + MAX_INT64 + 1) % TWO_TO_64 - MAX_INT64 - 1
  }

  lemma UnsignedFits(x: int)
    requires 0 <= x < TWO_TO_64
    ensures WrapUnsigned(x) == x
  {
  }

  lemma SignedFits(x: int)
    requires MIN_INT64 <= x <= MAX_INT64
    ensures WrapSigned(x) == x
  {
  }

  /** The quotient of two numbers that are not negative. */
  function Div(a: nat, b: nat): nat
    requires b > 0
  {
    a / b
  }

  lemma DivExactly(a: nat, b: nat, q: nat)
    requires b > 0
    ensures q <= Div(a, b) <==> q * b <= a
  {
    var d := Div(a, b);
    assert a == d * b + a % b && 0 <= a % b < b;
    if q <= d {
      assert q * b <= d * b;
    } else {
      assert q * b >= (d + 1) * b == d * b + b;
    }
  }

  lemma DivTwice(a: nat, b: nat, c: nat)
    requires b > 0 && c > 0
    ensures b * c > 0 && Div(a, b * c) == Div(Div(a, b), c)
  {
    hide Div;
    assert b * c > 0;
    var q := Div(a, b * c);
    var p := Div(Div(a, b), c);
    DivExactly(a, b * c, q);
    DivExactly(Div(a, b), c, q);
    DivExactly(a, b, q * c);
    assert q * (b * c) == (q * c) * b;
    DivExactly(Div(a, b), c, p);
    DivExactly(a, b, p * c);
    DivExactly(a, b * c, p);
    assert p * (b * c) == (p * c) * b;
  }

  lemma Distribute(a: int, b: int, c: int)
    ensures (a + b) * c == a * c + b * c
  {
  }

  /** Multiplying by a number that is not negative keeps the order. */
  lemma KeepsOrder(a: int, b: int, c: nat)
    requires a <= b
    ensures a * c <= b * c
  {
  }

  /** The places of a table whose rows have these lengths. */
  ghost function Places(rows: seq<nat>): set<(int, int)> {
    set j, i | 0 <= j < |rows| && 0 <= i < rows[j] :: (j, i)
  }

  lemma NoPlaces()
    ensures Places([]) == {}
  {
  }

  lemma {:induction false} PlacesMore(rows: seq<nat>, n: nat)
    ensures |Places(rows + [n])| == |Places(rows)| + n
  {
    var j := |rows|;
    if n == 0 {
      assert Places(rows + [n]) == Places(rows);
    } else {
      PlacesMore(rows, n - 1);
      var fewer := Places(rows + [n - 1]);
      assert Places(rows + [n]) == fewer + {(j, n - 1)};
    }
  }

  /** Division as the machine does it, towards zero. */
  function Quotient(a: int, b: int): int
    requires b > 0
  {
    if a >= 0 then Div(a, b) else 0 - Div(-a, b)
  }
}
