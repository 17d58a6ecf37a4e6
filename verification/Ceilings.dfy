/** Reading a ceiling out of a key list, and what a merge does to it. */
module CeilingKeys {
  import opened Machine
  import opened Options
  import opened OutlineText
  import opened Policies

  predicate IsDigit(c: char) {
    '0' <= c <= '9'
  }

  function Digits(s: string): Option<nat> {
    if s == [] then Some(0)
    else
      var n := |s| - 1;
      var before := Digits(s[..n]);
      if before.None? || !IsDigit(s[n]) then None else Some(10 * before.value + (s[n] as int - '0' as int))
  }

  /** Go's strconv.Atoi: an optional sign, at least one digit, and no overflow. */
  function Atoi(s: string): Option<int> {
    var signed := s != [] && (s[0] == '-' || s[0] == '+');
    var digits := if signed then s[1..] else s;
    var n := Digits(digits);
    if digits == [] || n.None? then None
    else
      var value := if signed && s[0] == '-' then 0 - n.value else n.value;
      if MIN_INT64 <= value <= MAX_INT64 then Some(value) else None
  }

  ghost predicate AllDigits(s: string) {
    forall i :: 0 <= i < |s| ==> '0' <= s[i] <= '9'
  }

  lemma {:induction false} DigitsExactly(s: string)
    ensures Digits(s).Some? <==> AllDigits(s)
  {
    if s != [] {
      DigitsExactly(s[..|s| - 1]);
    }
  }

  /** Zeros in front change no number. */
  lemma {:induction false} LeadingZero(s: string)
    ensures Digits(['0'] + s) == Digits(s)
  {
    if s == [] {
      assert (['0'] + s)[..0] == [];
    } else {
      var n := |s| - 1;
      LeadingZero(s[..n]);
      assert (['0'] + s)[..n + 1] == ['0'] + s[..n];
    }
  }

  /** Only a sign or none and then digits, at least one, are a number, and one that fits. */
  lemma AtoiExactly(s: string)
    ensures Atoi(s).Some? ==>
              && MIN_INT64 <= Atoi(s).value <= MAX_INT64
              && ((s != [] && AllDigits(s)) || (|s| > 1 && s[0] in {'+', '-'} && AllDigits(s[1..])))
  {
    DigitsExactly(s);
    if s != [] {
      DigitsExactly(s[1..]);
    }
  }

  function Decimal(n: nat): string {
    (if n < 10 then [] else Decimal(n / 10)) + [(n % 10) as char + '0']
  }

  lemma {:induction false} DigitsOfDecimal(n: nat)
    ensures Digits(Decimal(n)) == Some(n) && Decimal(n) != [] && forall i :: 0 <= i < |Decimal(n)| ==> IsDigit(Decimal(n)[i])
  {
    hide Digits, IsDigit;
    var c := (n % 10) as char + '0';
    LastDigit(n, c);
    if n < 10 {
      assert Decimal(n) == [] + [c];
      NoDigits();
      OneMoreDigit([], c);
    } else {
      DigitsOfDecimal(n / 10);
      OneMoreDigit(Decimal(n / 10), c);
    }
  }

  lemma LastDigit(n: nat, c: char)
    requires c == (n % 10) as char + '0'
    ensures IsDigit(c) && c as int - '0' as int == n % 10
  {
  }

  lemma NoDigits()
    ensures Digits([]) == Some(0)
  {
  }

  lemma OneMoreDigit(s: string, c: char)
    requires Digits(s).Some? && IsDigit(c)
    ensures Digits(s + [c]) == Some(10 * Digits(s).value + (c as int - '0' as int))
  {
    hide IsDigit;
    var more := s + [c];
    assert more[..|more| - 1] == s && more[|more| - 1] == c;
  }

  /** A number written out is read back, signed or not, exactly if it fits a machine integer. */
  lemma AtoiReadsBack(n: nat)
    ensures Atoi(Decimal(n)) == if n <= MAX_INT64 then Some(n) else None
    ensures Atoi("+" + Decimal(n)) == Atoi(Decimal(n))
    ensures Atoi("-" + Decimal(n)) == if 0 - n >= MIN_INT64 then Some(0 - n) else None
  {
    DigitsOfDecimal(n);
    assert IsDigit(Decimal(n)[0]);
    assert ("+" + Decimal(n))[1..] == Decimal(n);
    assert ("-" + Decimal(n))[1..] == Decimal(n);
  }

  /** A ceiling written as its name, a colon and a number is the ceiling that is read. */
  lemma CeilingReadsBack(name: string, n: nat, other: string)
    requires ':' !in name
    ensures CeilingIn(name + [':'] + Decimal(n), other) == if other == name && n <= MAX_INT64 then Some(n) else None
    ensures n > 0 ==> CeilingIn(name + [':'] + ("-" + Decimal(n)), name) == None
  {
    AtoiReadsBack(n);
    CutAt(name, ':', Decimal(n));
    CutAt(name, ':', "-" + Decimal(n));
    assert (name + [':'] + Decimal(n))[|name|] == ':';
    hide Atoi, Decimal, Cut;
  }

  /** What one key says of a ceiling: "name:number", and no negative number. */
  function CeilingIn(key: string, name: string): Option<nat> {
    if ':' !in key || Cut(key, ':').0 != name then None
    else
      var n := Atoi(Cut(key, ':').1);
      if n.None? || n.value < 0 then None else Some(n.value)
  }

  /** A key gives a ceiling if it is the ceiling's name, a colon and a number that is not negative. */
  lemma CeilingExactly(key: string, name: string, n: nat)
    ensures CeilingIn(key, name) == Some(n) <==> exists text :: key == name + ([':'] + text) && ':' !in name && Atoi(text) == Some(n)
  {
    hide Atoi;
    if ':' in key {
      CutSplits(key, ':');
      hide Cut;
      var text := Cut(key, ':').1;
      assert key == Cut(key, ':').0 + ([':'] + text);
    }
    forall text | key == name + ([':'] + text) && ':' !in name ensures Cut(key, ':') == (name, text) && ':' in key {
      CutAt(name, ':', text);
      assert name + [':'] + text == name + ([':'] + text);
      assert key[|name|] == ':';
    }
    hide Cut;
  }

  function Lower(a: Option<nat>, b: Option<nat>): Option<nat> {
    if a.None? then b else if b.None? || a.value <= b.value then a else b
  }

  /** The lowest value any key gives a ceiling. */
  function LimitOf(keys: seq<string>, name: string): Option<nat> {
    if keys == [] then None else Lower(LimitOf(keys[..|keys| - 1], name), CeilingIn(keys[|keys| - 1], name))
  }

  method Limit(s: Setting, name: string) returns (r: Option<nat>)
    ensures r == LimitOf(s.keys, name)
  {
    var out, found := 0, false;
    for i := 0 to |s.keys|
      invariant LimitOf(s.keys[..i], name) == if found then Some(out) else None
    {
      var key := s.keys[i];
      assert s.keys[..i + 1][..i] == s.keys[..i];
      if ':' !in key || Cut(key, ':').0 != name {
        continue;
      }
      var n := Atoi(Cut(key, ':').1);
      if n.None? || n.value < 0 {
        continue;
      }
      if !found || n.value < out {
        out, found := n.value, true;
      }
    }
    assert s.keys[..|s.keys|] == s.keys;
    r := if found then Some(out) else None;
  }

  /** A limit is what some key gives, and no key gives less. */
  ghost predicate IsLimit(keys: set<string>, name: string, limit: Option<nat>) {
    && (limit.None? ==> forall k :: k in keys ==> CeilingIn(k, name).None?)
    && (limit.Some? ==>
          && (exists k :: k in keys && CeilingIn(k, name) == limit)
          && forall k :: k in keys && CeilingIn(k, name).Some? ==> limit.value <= CeilingIn(k, name).value)
  }

  lemma {:induction false} LimitIs(keys: seq<string>, name: string)
    ensures IsLimit(KeySet(keys), name, LimitOf(keys, name))
  {
    hide CeilingIn;
    if keys != [] {
      var n := |keys| - 1;
      LimitIs(keys[..n], name);
      KeySetMore(keys[..n], keys[n]);
      assert keys == keys[..n] + [keys[n]];
    }
  }

  lemma LimitUnique(keys: set<string>, name: string, a: Option<nat>, b: Option<nat>)
    requires IsLimit(keys, name, a) && IsLimit(keys, name, b)
    ensures a == b
  {
    hide CeilingIn;
  }

  lemma LimitOfUnion(a: set<string>, b: set<string>, name: string, x: Option<nat>, y: Option<nat>)
    requires IsLimit(a, name, x) && IsLimit(b, name, y)
    ensures IsLimit(a + b, name, Lower(x, y))
  {
    hide CeilingIn;
  }

  /** The strictest limit any scope sets. */
  ghost function StrictestLimit(scopes: seq<Option<Policy>>, check: string, name: string): Option<nat> {
    if scopes == [] then None
    else
      var last := scopes[|scopes| - 1];
      Lower(StrictestLimit(scopes[..|scopes| - 1], check, name),
            if last.Some? && check in last.value then LimitOf(last.value[check].keys, name) else None)
  }

  lemma {:induction false} LimitOfSaid(scopes: seq<Option<Policy>>, check: string, name: string)
    ensures IsLimit(AnyKeys(Said(scopes, check)), name, StrictestLimit(scopes, check, name))
  {
    if scopes != [] {
      var n := |scopes| - 1;
      LimitOfSaid(scopes[..n], check, name);
      SaidMore(scopes, n, check);
      assert scopes[..n + 1] == scopes;
      var bs := Said(scopes[..n], check);
      if scopes[n].Some? && check in scopes[n].value {
        var keys := scopes[n].value[check].keys;
        var b := BindingOf(scopes[n].value[check]);
        assert (bs + [b])[..|bs|] == bs;
        LimitIs(keys, name);
        LimitOfUnion(AnyKeys(bs), KeySet(keys), name, StrictestLimit(scopes[..n], check, name), LimitOf(keys, name));
      } else {
        assert Said(scopes, check) == bs;
      }
    }
  }

  /** The limit a merged policy gives is the lowest any scope gives on its own, and the shipped
      one plays no part once a scope configures the check. */
  lemma LimitOfMerge(t: Table, scopes: seq<Option<Policy>>, merged: Policy, check: string, name: string)
    requires forall c :: Bound(merged, c) == Merged(t, scopes, c)
    requires IsKind(t, check, Ceilings) && check in merged
    ensures LimitOf(merged[check].keys, name) == StrictestLimit(scopes, check, name)
  {
    assert Bound(merged, check) == Merged(t, scopes, check);
    LimitOfSaid(scopes, check, name);
    LimitIs(merged[check].keys, name);
    LimitUnique(KeySet(merged[check].keys), name, LimitOf(merged[check].keys, name), StrictestLimit(scopes, check, name));
  }

  method Flag(s: Setting, name: string) returns (r: bool)
    ensures r <==> name in s.keys
  {
    r := name in s.keys;
  }

  /** A flag any scope sets is set, and no scope can remove it. */
  lemma FlagOfMerge(t: Table, scopes: seq<Option<Policy>>, merged: Policy, check: string, name: string)
    requires forall c :: Bound(merged, c) == Merged(t, scopes, c)
    requires IsKind(t, check, Ceilings) && check in merged
    ensures name in merged[check].keys <==> exists s :: s in scopes && s.Some? && check in s.value && name in s.value[check].keys
  {
    assert Bound(merged, check) == Merged(t, scopes, check);
    assert name in merged[check].keys <==> name in KeySet(merged[check].keys);
    var bs := Said(scopes, check);
    AnyKeysAre(bs, name);
    if name in AnyKeys(bs) {
      var b :| b in bs && name in b.keys;
      SaidBy(scopes, check, b);
    }
    forall s | s in scopes && s.Some? && check in s.value && name in s.value[check].keys ensures name in AnyKeys(bs) {
      SaidBy(scopes, check, BindingOf(s.value[check]));
      assert Says(s, check, BindingOf(s.value[check]));
    }
  }
}
