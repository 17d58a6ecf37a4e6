/** String literals as ClickHouse prints them, and reading them back.

    The loops walk an index over bytes and append to a builder. Each is proved against a
    function of the text, and the round trips are proved about the functions. */
module Literals {
  import opened Options
  import opened OutlineText

  /** The character a backslash and `c` stand for. */
  function Decoded(c: char): char {
    match c
    case 'n' => '\n'
    case 't' => '\t'
    case 'r' => '\r'
    case '0' => '\0'
    case _ => c
  }

  /** One layer of escaping removed. */
  function Unescaped(s: string): string {
    if s == [] then []
    else if s[0] != '\\' || |s| == 1 then [s[0]] + Unescaped(s[1..])
    else [Decoded(s[1])] + Unescaped(s[2..])
  }

  lemma UnescapedAt(s: string, i: nat)
    requires i < |s|
    ensures Unescaped(s[i..])
         == if s[i] != '\\' || i + 1 >= |s| then [s[i]] + Unescaped(s[i + 1..]) else [Decoded(s[i + 1])] + Unescaped(s[i + 2..])
  {
    assert s[i..][1..] == s[i + 1..];
    assert i + 1 < |s| ==> s[i..][2..] == s[i + 2..];
  }

  /** A backslash is dropped and what follows it stands, but for the four control characters; a
      backslash with nothing behind it stands for itself, as everything else does. */
  lemma UnescapedExactly(c: char, rest: string)
    ensures Unescaped([]) == [] && Unescaped(['\\']) == ['\\']
    ensures c != '\\' ==> Unescaped([c] + rest) == [c] + Unescaped(rest)
    ensures Unescaped(['\\', 'n'] + rest) == ['\n'] + Unescaped(rest)
    ensures Unescaped(['\\', 't'] + rest) == ['\t'] + Unescaped(rest)
    ensures Unescaped(['\\', 'r'] + rest) == ['\r'] + Unescaped(rest)
    ensures Unescaped(['\\', '0'] + rest) == ['\0'] + Unescaped(rest)
    ensures c !in {'n', 't', 'r', '0'} ==> Unescaped(['\\', c] + rest) == [c] + Unescaped(rest)
  {
    assert ([c] + rest)[1..] == rest;
    forall d: char ensures (['\\', d] + rest)[2..] == rest {
    }
  }

  method Unescape(s: string) returns (out: string)
    ensures out == Unescaped(s)
  {
    out := [];
    var i := 0;
    assert s[0..] == s;
    while i < |s|
      invariant 0 <= i <= |s|
      invariant Unescaped(s) == out + Unescaped(s[i..])
    {
      hide Unescaped;
      UnescapedAt(s, i);
      if s[i] != '\\' || i + 1 >= |s| {
        Assoc(out, [s[i]], Unescaped(s[i + 1..]));
        out := out + [s[i]];
        i := i + 1;
        continue;
      }
      i := i + 1;
      Assoc(out, [Decoded(s[i])], Unescaped(s[i + 1..]));
      match s[i] {
        case 'n' => out := out + ['\n'];
        case 't' => out := out + ['\t'];
        case 'r' => out := out + ['\r'];
        case '0' => out := out + ['\0'];
        case _ => out := out + [s[i]];
      }
      i := i + 1;
    }
  }

  /** How one character is written inside a literal. `plain` says which control characters a
      printer leaves as they are: none of the choices changes what is read back. */
  function EscapedChar(c: char, plain: set<char>): string {
    if c == '\\' || c == '\'' then ['\\', c]
    else if c in plain then [c]
    else if c == '\n' then "\\n"
    else if c == '\t' then "\\t"
    else if c == '\r' then "\\r"
    else if c == '\0' then "\\0"
    else [c]
  }

  /** One layer of escaping added. */
  function Escape(s: string, plain: set<char>): string {
    if s == [] then [] else EscapedChar(s[0], plain) + Escape(s[1..], plain)
  }

  lemma UnescapeOne(c: char, plain: set<char>, rest: string)
    ensures Unescaped(EscapedChar(c, plain) + rest) == [c] + Unescaped(rest)
  {
    var s := EscapedChar(c, plain) + rest;
    if |EscapedChar(c, plain)| == 2 {
      assert s[2..] == rest;
    } else {
      assert s[1..] == rest;
    }
  }

  /** Removing a layer of escaping undoes adding one, whatever follows. */
  lemma {:induction false} UnescapeEscape(s: string, plain: set<char>, rest: string)
    ensures Unescaped(Escape(s, plain) + rest) == s + Unescaped(rest)
  {
    if s == [] {
      assert Escape(s, plain) + rest == rest;
    } else {
      hide Unescaped, EscapedChar;
      var tail := Escape(s[1..], plain) + rest;
      Assoc(EscapedChar(s[0], plain), Escape(s[1..], plain), rest);
      UnescapeOne(s[0], plain, tail);
      UnescapeEscape(s[1..], plain, rest);
      Assoc([s[0]], s[1..], Unescaped(rest));
      assert s == [s[0]] + s[1..];
    }
  }

  function Quoted(s: string, plain: set<char>): string {
    ['\''] + Escape(s, plain) + ['\'']
  }

  /** A literal as the syntax tree prints it: the SQL text of it, escaped once more. */
  function Printed(s: string, plain: set<char>): string {
    Escape(Quoted(s, plain), plain)
  }

  predicate IsQuoted(s: string) {
    |s| >= 2 && s[0] == '\'' && s[|s| - 1] == '\''
  }

  /** What a printed literal says, or nothing if it is not a string. */
  function LiteralOf(detail: string): Option<string> {
    var text := Unescaped(detail);
    if IsQuoted(text) then Some(Unescaped(text[1..|text| - 1])) else None
  }

  method LiteralString(detail: string) returns (r: Option<string>)
    ensures r == LiteralOf(detail)
  {
    var text := Unescape(detail);
    if |text| < 2 || text[0] != '\'' || text[|text| - 1] != '\'' {
      return None;
    }
    var value := Unescape(text[1..|text| - 1]);
    r := Some(value);
  }

  /** A literal is a string if what is left of it after one layer stands in quotes. */
  lemma LiteralExactly(detail: string, value: string)
    ensures LiteralOf(detail) == Some(value)
       <==> exists inner :: Unescaped(detail) == ['\''] + inner + ['\''] && value == Unescaped(inner)
  {
    var text := Unescaped(detail);
    hide Unescaped;
    if LiteralOf(detail) == Some(value) {
      assert text == ['\''] + text[1..|text| - 1] + ['\''];
    }
    if inner :| text == ['\''] + inner + ['\''] && value == Unescaped(inner) {
      assert text[1..|text| - 1] == inner;
    }
  }

  /** Any string printed through both layers is read back as itself. */
  lemma LiteralRoundTrip(s: string, plain: set<char>)
    ensures LiteralOf(Printed(s, plain)) == Some(s)
  {
    var q := Quoted(s, plain);
    UnescapeEscape(q, plain, []);
    assert Escape(q, plain) + [] == Escape(q, plain);
    assert q + [] == q;
    assert q[1..|q| - 1] == Escape(s, plain);
    UnescapeEscape(s, plain, []);
    assert Escape(s, plain) + [] == Escape(s, plain) && s + [] == s;
  }

  /** No two strings are printed alike, so none is mistaken for another. */
  lemma PrintedInjective(s: string, t: string, plain: set<char>)
    requires Printed(s, plain) == Printed(t, plain)
    ensures s == t
  {
    LiteralRoundTrip(s, plain);
    LiteralRoundTrip(t, plain);
  }

  /** A literal of any other type is not mistaken for a string: its text is not quoted. */
  lemma NumbersAreNotStrings(detail: string)
    requires detail != [] && detail[0] != '\\' && detail[0] != '\''
    ensures LiteralOf(detail) == None
  {
  }

  // One quoted literal at the front of a text.

  /** Where the closing quote is: the first that no backslash precedes, or nowhere. */
  function Closing(s: string): (r: Option<nat>)
    ensures r.Some? ==> r.value < |s| && s[r.value] == '\''
  {
    if s == [] then None
    else if s[0] == '\'' then Some(0)
    else if s[0] == '\\' then
      if |s| < 2 then None else After(Closing(s[2..]), 2)
    else After(Closing(s[1..]), 1)
  }

  function After(at: Option<nat>, skipped: nat): Option<nat> {
    if at.None? then None else Some(at.value + skipped)
  }

  datatype Read = NotQuoted | Read(value: string, rest: string)

  function ReadQuoted(s: string): Read {
    if s == [] || s[0] != '\'' then NotQuoted
    else
      var at := Closing(s[1..]);
      if at.None? then NotQuoted else Read(Unescaped(s[1..][..at.value]), s[1..][at.value + 1..])
  }

  lemma ClosingAt(s: string, i: nat)
    requires i <= |s|
    ensures Closing(s[i..])
         == if i == |s| then None
            else if s[i] == '\'' then Some(0)
            else if s[i] != '\\' then After(Closing(s[i + 1..]), 1)
            else if i + 1 == |s| then None
            else After(Closing(s[i + 2..]), 2)
  {
    assert i < |s| ==> s[i..][1..] == s[i + 1..];
    assert i + 1 < |s| ==> s[i..][2..] == s[i + 2..];
  }

  /** How many backslashes stand directly before a place. */
  function Slashes(s: string, k: nat): nat
    requires k <= |s|
  {
    if k > 0 && s[k - 1] == '\\' then 1 + Slashes(s, k - 1) else 0
  }

  /** A quote that an even number of backslashes precede, which escape each other. */
  ghost predicate BareQuote(s: string, k: int) {
    0 <= k < |s| && s[k] == '\'' && Slashes(s, k) % 2 == 0
  }

  ghost predicate FirstBareQuote(s: string, k: int) {
    BareQuote(s, k) && forall j :: 0 <= j < k ==> !BareQuote(s, j)
  }

  /** The closing quote is the first bare one, and there is none exactly if no quote is bare. */
  lemma {:induction false} ClosingExactly(s: string, k: nat)
    ensures Closing(s) == Some(k) <==> FirstBareQuote(s, k)
  {
    if s == [] {
    } else if s[0] == '\'' {
      assert BareQuote(s, 0);
    } else if s[0] != '\\' {
      SkipsTo(s, 1, k);
      if k > 0 {
        ClosingExactly(s[1..], k - 1);
      }
    } else if |s| == 1 {
      assert !BareQuote(s, 0);
    } else {
      SkipsTo(s, 2, k);
      if k > 1 {
        ClosingExactly(s[2..], k - 2);
      }
    }
  }

  /** Behind one plain character, or behind a backslash and what it escapes, the same quotes are bare. */
  lemma SkipsTo(s: string, n: nat, k: nat)
    requires s != [] && s[0] != '\''
    requires if s[0] == '\\' then n == 2 <= |s| else n == 1
    ensures FirstBareQuote(s, k) <==> k >= n && FirstBareQuote(s[n..], k - n)
  {
    forall j | 0 <= j < |s| - n ensures BareQuote(s[n..], j) <==> BareQuote(s, j + n) {
      SlashesBehind(s, n, j);
    }
    assert !BareQuote(s, 0);
    assert n == 2 ==> !BareQuote(s, 1) by {
      assert n == 2 ==> Slashes(s, 0) == 0 && Slashes(s, 1) == 1;
    }
    if FirstBareQuote(s, k) {
      assert k >= n;
      forall j | 0 <= j < k - n ensures !BareQuote(s[n..], j) {
        assert !BareQuote(s, j + n);
      }
    }
    if k >= n && FirstBareQuote(s[n..], k - n) {
      forall j | 0 <= j < k ensures !BareQuote(s, j) {
        assert j >= n ==> !BareQuote(s[n..], j - n);
      }
    }
    hide BareQuote;
  }

  lemma {:induction false} SlashesBehind(s: string, n: nat, j: nat)
    requires s != [] && s[0] != '\'' && (if s[0] == '\\' then n == 2 <= |s| else n == 1) && j <= |s| - n
    ensures Slashes(s, j + n) % 2 == Slashes(s[n..], j) % 2
  {
    if j > 0 && s[j + n - 1] == '\\' {
      SlashesBehind(s, n, j - 1);
    } else if j == 0 && n == 2 {
      assert Slashes(s, 0) == 0 && Slashes(s, 1) == 1;
    }
  }

  method QuotedLiteral(s: string) returns (r: Read)
    ensures r == ReadQuoted(s)
  {
    hide Closing, Unescaped;
    if s == [] || s[0] != '\'' {
      return NotQuoted;
    }
    var rest := s[1..];
    var i := 0;
    assert rest[0..] == rest;
    while i < |rest|
      invariant 0 <= i <= |rest|
      invariant Closing(rest) == After(Closing(rest[i..]), i)
    {
      ClosingAt(rest, i);
      match rest[i] {
        case '\'' =>
          var value := Unescape(rest[..i]);
          return Read(value, rest[i + 1..]);
        case '\\' =>
          if i + 1 >= |rest| {
            return NotQuoted;
          }
          i := i + 1;
        case _ =>
      }
      i := i + 1;
    }
    ClosingAt(rest, |rest|);
    r := NotQuoted;
  }

  lemma {:induction false} ClosingOfEscaped(s: string, plain: set<char>, rest: string)
    ensures Closing(Escape(s, plain) + (['\''] + rest)) == Some(|Escape(s, plain)|)
  {
    hide Closing, EscapedChar;
    if s == [] {
      assert Escape(s, plain) + (['\''] + rest) == ['\''] + rest;
      ClosingHere(rest);
    } else {
      var first, others := EscapedChar(s[0], plain), Escape(s[1..], plain);
      ClosingOfEscaped(s[1..], plain, rest);
      ClosingPast(s[0], plain, others + (['\''] + rest));
      Assoc(first, others, ['\''] + rest);
      assert Escape(s, plain) == first + others;
    }
  }

  lemma ClosingHere(rest: string)
    ensures Closing(['\''] + rest) == Some(0)
  {
  }

  lemma ClosingPast(c: char, plain: set<char>, tail: string)
    ensures Closing(EscapedChar(c, plain) + tail) == After(Closing(tail), |EscapedChar(c, plain)|)
  {
    hide Closing, After;
    if EscapedChar(c, plain) == [c] && c != '\\' && c != '\'' {
      ClosingPastOne(c, tail);
    } else {
      assert EscapedChar(c, plain) == ['\\', EscapedChar(c, plain)[1]];
      ClosingPastTwo(EscapedChar(c, plain)[1], tail);
    }
  }

  lemma ClosingPastOne(c: char, tail: string)
    requires c != '\'' && c != '\\'
    ensures Closing([c] + tail) == After(Closing(tail), 1)
  {
    assert ([c] + tail)[1..] == tail;
    hide After;
  }

  lemma ClosingPastTwo(c: char, tail: string)
    ensures Closing(['\\', c] + tail) == After(Closing(tail), 2)
  {
    assert (['\\', c] + tail)[2..] == tail;
    hide After;
  }

  /** A printed literal is read back as the string, and what follows it is untouched. */
  lemma QuotedRoundTrip(s: string, plain: set<char>, rest: string)
    ensures ReadQuoted(Quoted(s, plain) + rest) == Read(s, rest)
  {
    var all := Quoted(s, plain) + rest;
    var inner := Escape(s, plain);
    ClosingOfEscaped(s, plain, rest);
    assert all[1..] == inner + (['\''] + rest);
    assert all[1..][..|inner|] == inner;
    assert all[1..][|inner| + 1..] == rest;
    UnescapeEscape(s, plain, []);
    assert inner + [] == inner && s + [] == s;
  }

  // The engine clause of a Distributed table.

  /** Go's strings.TrimLeft of spaces alone. */
  function TrimSpaces(s: string): string {
    if s != [] && s[0] == ' ' then TrimSpaces(s[1..]) else s
  }

  function CutPrefix(s: string, prefix: string): Option<string> {
    if prefix <= s then Some(s[|prefix|..]) else None
  }

  const ENGINE := "Distributed("

  datatype Target = Unresolved | Target(cluster: string, database: string, table: string)

  /** The next argument: after a comma unless it is the first, and a quoted literal. */
  function NextArgument(rest: string, first: bool): Read {
    var here := if first then Some(rest) else CutPrefix(TrimSpaces(rest), ",");
    if here.None? then NotQuoted else ReadQuoted(TrimSpaces(here.value))
  }

  /** The first `n` arguments of a list and what follows them, if each is a quoted literal. */
  function Arguments(rest: string, n: nat): (r: Option<(seq<string>, string)>)
    ensures r.Some? ==> |r.value.0| == n
  {
    if n == 0 then Some(([], rest))
    else
      var before := Arguments(rest, n - 1);
      if before.None? then None
      else
        var read := NextArgument(before.value.1, n == 1);
        if read.NotQuoted? then None else Some((before.value.0 + [read.value], read.rest))
  }

  /** The local table an engine clause names, or nothing unless all three names are there. */
  function TargetOf(engine: string): Target {
    var rest := CutPrefix(TrimSpace(engine), ENGINE);
    if rest.None? then Unresolved
    else
      var args := Arguments(rest.value, 3);
      if args.None? || [] in args.value.0 then Unresolved
      else Target(args.value.0[0], args.value.0[1], args.value.0[2])
  }

  lemma {:induction false} ArgumentsStop(rest: string, m: nat, n: nat)
    requires m <= n && Arguments(rest, m).None?
    ensures Arguments(rest, n).None?
    decreases n
  {
    if m < n {
      ArgumentsStop(rest, m, n - 1);
    }
  }

  lemma MoreArguments(rest: string, n: nat)
    requires Arguments(rest, n).Some?
    ensures var before := Arguments(rest, n).value; var read := NextArgument(before.1, n == 0);
            Arguments(rest, n + 1) == if read.NotQuoted? then None else Some((before.0 + [read.value], read.rest))
  {
  }

  method DistributedTarget(engineFull: string) returns (r: Target)
    ensures r == TargetOf(engineFull)
  {
    hide Arguments, ReadQuoted, TrimSpaces, CutPrefix, TrimSpace;
    var cut := CutPrefix(TrimSpace(engineFull), ENGINE);
    if cut.None? {
      return Unresolved;
    }
    var rest := cut.value;
    var args := new string[3];
    NoArguments(rest);
    for i := 0 to 3
      invariant Arguments(cut.value, i) == Some((args[..i], rest))
    {
      MoreArguments(cut.value, i);
      if i > 0 {
        var comma := CutPrefix(TrimSpaces(rest), ",");
        if comma.None? {
          ArgumentsStop(cut.value, i + 1, 3);
          return Unresolved;
        }
        rest := comma.value;
      }
      var read := QuotedLiteral(TrimSpaces(rest));
      if read.NotQuoted? {
        ArgumentsStop(cut.value, i + 1, 3);
        return Unresolved;
      }
      ghost var before := args[..i];
      args[i], rest := read.value, read.rest;
      assert args[..i + 1] == before + [read.value];
    }
    ghost var all := args[..];
    assert args[..3] == all;
    if args[0] == "" || args[1] == "" || args[2] == "" {
      assert all[0] == [] || all[1] == [] || all[2] == [];
      return Unresolved;
    }
    r := Target(args[0], args[1], args[2]);
  }

  /** What stands before an argument: a comma, unless it is the first. */
  function Lead(gap: nat, first: bool): string {
    if first then [] else Spaces(gap) + [',']
  }

  /** The arguments from the `i`-th on as the server stores them, with any spaces around the
      commas, and whatever follows. */
  function Clause(names: seq<string>, plain: set<char>, gaps: seq<nat>, i: nat, rest: string): string
    requires |gaps| == 2 * |names| && i <= |names|
    decreases |names| - i
  {
    if i == |names| then rest
    else Lead(gaps[2 * i], i == 0) + (Spaces(gaps[2 * i + 1]) + (Quoted(names[i], plain) + Clause(names, plain, gaps, i + 1, rest)))
  }

  lemma {:induction false} TrimSpacesIndent(n: nat, s: string)
    requires s != [] && s[0] != ' '
    ensures TrimSpaces(Spaces(n) + s) == s
  {
    if n == 0 {
      assert Spaces(n) + s == s;
    } else {
      TrimSpacesIndent(n - 1, s);
      assert (Spaces(n) + s)[1..] == Spaces(n - 1) + s;
    }
  }

  lemma NextArgumentRead(name: string, plain: set<char>, gap: nat, indent: nat, first: bool, rest: string)
    ensures NextArgument(Lead(gap, first) + (Spaces(indent) + (Quoted(name, plain) + rest)), first) == Read(name, rest)
  {
    var q := Quoted(name, plain) + rest;
    assert q[0] == '\'';
    TrimSpacesIndent(indent, q);
    QuotedRoundTrip(name, plain, rest);
    hide Quoted, ReadQuoted, Spaces, TrimSpaces;
    var after := Spaces(indent) + q;
    if first {
      assert Lead(gap, first) + after == after;
    } else {
      var comma := [','] + after;
      TrimSpacesIndent(gap, comma);
      Assoc(Spaces(gap), [','], after);
      assert comma[1..] == after;
    }
  }

  /** Any names are read back from the front of a printed list, whatever follows them. */
  lemma {:induction false} ArgumentsRead(names: seq<string>, plain: set<char>, gaps: seq<nat>, rest: string, n: nat)
    requires |gaps| == 2 * |names| && n <= |names|
    ensures Arguments(Clause(names, plain, gaps, 0, rest), n) == Some((names[..n], Clause(names, plain, gaps, n, rest)))
  {
    hide Clause, Arguments, NextArgument, Lead, Spaces, Quoted;
    if n == 0 {
      NoArguments(Clause(names, plain, gaps, 0, rest));
    } else {
      ArgumentsRead(names, plain, gaps, rest, n - 1);
      MoreArguments(Clause(names, plain, gaps, 0, rest), n - 1);
      NextArgumentRead(names[n - 1], plain, gaps[2 * n - 2], gaps[2 * n - 1], n == 1, Clause(names, plain, gaps, n, rest));
      ClauseAt(names, plain, gaps, n - 1, rest);
      assert names[..n - 1] + [names[n - 1]] == names[..n];
    }
  }

  lemma NoArguments(rest: string)
    ensures Arguments(rest, 0) == Some(([], rest))
  {
  }

  lemma ClauseAt(names: seq<string>, plain: set<char>, gaps: seq<nat>, i: nat, rest: string)
    requires |gaps| == 2 * |names| && i < |names|
    ensures Clause(names, plain, gaps, i, rest)
         == Lead(gaps[2 * i], i == 0) + (Spaces(gaps[2 * i + 1]) + (Quoted(names[i], plain) + Clause(names, plain, gaps, i + 1, rest)))
  {
  }

  lemma ClauseDone(names: seq<string>, plain: set<char>, gaps: seq<nat>, rest: string)
    requires |gaps| == 2 * |names|
    ensures Clause(names, plain, gaps, |names|, rest) == rest
  {
  }

  predicate EndsQuoted(s: string) {
    s != [] && s[|s| - 1] == '\''
  }

  lemma {:induction false} ClauseAppend(names: seq<string>, plain: set<char>, gaps: seq<nat>, i: nat, rest: string)
    requires |gaps| == 2 * |names| && i <= |names|
    ensures Clause(names, plain, gaps, i, rest) == Clause(names, plain, gaps, i, []) + rest
    ensures if i < |names| then EndsQuoted(Clause(names, plain, gaps, i, [])) else Clause(names, plain, gaps, i, []) == []
    decreases |names| - i
  {
    hide Clause, Lead, Spaces, Quoted;
    if i == |names| {
      ClauseDone(names, plain, gaps, rest);
      ClauseDone(names, plain, gaps, []);
    } else {
      ClauseAppend(names, plain, gaps, i + 1, rest);
      ClauseAt(names, plain, gaps, i, []);
      ClauseAt(names, plain, gaps, i, rest);
      hide EndsQuoted;
      AppendLast(Lead(gaps[2 * i], i == 0), Spaces(gaps[2 * i + 1]), names[i], plain, Clause(names, plain, gaps, i + 1, []), rest);
    }
  }

  lemma AppendLast(a: string, b: string, name: string, plain: set<char>, d: string, rest: string)
    requires d == [] || EndsQuoted(d)
    ensures var c := Quoted(name, plain);
            && a + (b + (c + (d + rest))) == (a + (b + (c + d))) + rest
            && EndsQuoted(a + (b + (c + d)))
  {
    var c := Quoted(name, plain);
    assert EndsQuoted(c);
    hide Quoted;
    Assoc(c, d, rest);
    Assoc(b, c + d, rest);
    Assoc(a, b + (c + d), rest);
  }

  lemma {:induction false} TrimRightAfter(s: string, rest: string) returns (kept: string)
    requires s != [] && !IsSpace(s[|s| - 1])
    ensures TrimRight(s + rest) == s + kept
    decreases |rest|
  {
    if rest == [] || !IsSpace(rest[|rest| - 1]) {
      kept := rest;
    } else {
      kept := TrimRightAfter(s, rest[..|rest| - 1]);
      assert (s + rest)[..|s + rest| - 1] == s + rest[..|rest| - 1];
    }
  }

  /** The three names of a printed clause are recovered, and a missing one resolves nothing. */
  lemma TargetRoundTrip(indent: nat, names: seq<string>, plain: set<char>, gaps: seq<nat>, rest: string)
    requires |names| == 3 && |gaps| == 6
    ensures TargetOf(Spaces(indent) + (ENGINE + Clause(names, plain, gaps, 0, rest)))
         == if [] in names then Unresolved else Target(names[0], names[1], names[2])
  {
    var engine := ENGINE;
    var body := Clause(names, plain, gaps, 0, []);
    ClauseAppend(names, plain, gaps, 0, rest);
    var kept := TrimEngine(indent, engine, body, rest);
    ClauseAppend(names, plain, gaps, 0, kept);
    ArgumentsRead(names, plain, gaps, kept, 3);
    CutPrefixRead(engine, Clause(names, plain, gaps, 0, kept));
    hide Clause, TrimSpace, Arguments, Spaces, Quoted, CutPrefix;
    assert names[..3] == names;
  }

  lemma CutPrefixRead(prefix: string, s: string)
    ensures CutPrefix(prefix + s, prefix) == Some(s)
  {
    assert (prefix + s)[|prefix|..] == s;
  }

  /** Trimming a clause takes nothing from its engine or its arguments. */
  lemma TrimEngine(indent: nat, engine: string, body: string, rest: string) returns (kept: string)
    requires engine != [] && !IsSpace(engine[0]) && EndsQuoted(body)
    ensures TrimSpace(Spaces(indent) + (engine + (body + rest))) == engine + (body + kept)
  {
    var s := engine + (body + rest);
    assert s[0] == engine[0];
    TrimLeftIndent(indent, s);
    Assoc(engine, body, rest);
    kept := TrimRightAfter(engine + body, rest);
    Assoc(engine, body, kept);
  }

  // What is read as an engine clause, and nothing else is.

  /** A quoted literal of this inside, and what follows it. */
  ghost predicate QuotedAs(s: string, inner: string, rest: string) {
    s == ['\''] + (inner + (['\''] + rest)) && FirstBareQuote(inner + (['\''] + rest), |inner|)
  }

  lemma ReadQuotedExactly(s: string, value: string, rest: string)
    ensures ReadQuoted(s) == Read(value, rest) <==> exists inner :: QuotedAs(s, inner, rest) && value == Unescaped(inner)
  {
    hide Unescaped, Closing, FirstBareQuote;
    if s != [] && s[0] == '\'' {
      var t := s[1..];
      if Closing(t).Some? {
        ClosingExactly(t, Closing(t).value);
        var inner, after := t[..Closing(t).value], t[Closing(t).value + 1..];
        assert t == inner + (['\''] + after) && s == ['\''] + t;
        assert QuotedAs(s, inner, after);
      }
      forall inner | QuotedAs(s, inner, rest) ensures ReadQuoted(s) == Read(Unescaped(inner), rest) {
        QuotedIsRead(s, inner, rest);
      }
    } else {
      forall inner ensures !QuotedAs(s, inner, rest) {
      }
    }
  }

  lemma QuotedIsRead(s: string, inner: string, rest: string)
    requires QuotedAs(s, inner, rest)
    ensures ReadQuoted(s) == Read(Unescaped(inner), rest)
  {
    hide Unescaped, Closing, FirstBareQuote;
    var t := inner + (['\''] + rest);
    ClosingExactly(t, |inner|);
    assert s[1..] == t && t[..|inner|] == inner && t[|inner| + 1..] == rest;
  }

  lemma {:induction false} TrimSpacesSplits(s: string) returns (n: nat)
    ensures s == Spaces(n) + TrimSpaces(s) && (TrimSpaces(s) == [] || TrimSpaces(s)[0] != ' ')
  {
    n := 0;
    if s != [] && s[0] == ' ' {
      n := TrimSpacesSplits(s[1..]);
      assert s == [' '] + s[1..];
      Assoc([' '], Spaces(n), TrimSpaces(s[1..]));
      n := n + 1;
    } else {
      assert Spaces(0) + s == s;
    }
  }

  /** An argument of this value: after a comma unless it is the first, with any spaces around it, a
      quoted literal. */
  ghost predicate Argument(text: string, first: bool, value: string, left: string) {
    exists gap, indent, inner, quoted :: ArgumentAt(text, first, gap, indent, inner, quoted, left) && value == Unescaped(inner)
  }

  ghost predicate ArgumentAt(text: string, first: bool, gap: nat, indent: nat, inner: string, quoted: string, left: string) {
    text == Lead(gap, first) + (Spaces(indent) + quoted) && QuotedAs(quoted, inner, left)
  }

  lemma NextArgumentExactly(text: string, first: bool, value: string, left: string)
    ensures NextArgument(text, first) == Read(value, left) <==> Argument(text, first, value, left)
  {
    hide ReadQuoted, TrimSpaces, Spaces, Unescaped, QuotedAs, NextArgument;
    if NextArgument(text, first) == Read(value, left) {
      ArgumentRead(text, first, value, left);
    }
    forall gap, indent, inner, quoted | ArgumentAt(text, first, gap, indent, inner, quoted, left)
      ensures NextArgument(text, first) == Read(Unescaped(inner), left) {
      ArgumentIsRead(text, first, gap, indent, inner, quoted, left);
    }
  }

  lemma ArgumentRead(text: string, first: bool, value: string, left: string)
    requires NextArgument(text, first) == Read(value, left)
    ensures Argument(text, first, value, left)
  {
    hide ReadQuoted, TrimSpaces, Spaces, Unescaped, QuotedAs;
    var gap := TrimSpacesSplits(text);
    var here := if first then text else TrimSpaces(text)[1..];
    if !first {
      assert TrimSpaces(text) == [','] + here;
      Assoc(Spaces(gap), [','], here);
    }
    assert first ==> Lead(gap, first) + here == here;
    var indent := TrimSpacesSplits(here);
    var quoted := TrimSpaces(here);
    ReadQuotedExactly(quoted, value, left);
    var inner :| QuotedAs(quoted, inner, left) && value == Unescaped(inner);
    assert ArgumentAt(text, first, gap, indent, inner, quoted, left);
  }

  lemma ArgumentIsRead(text: string, first: bool, gap: nat, indent: nat, inner: string, quoted: string, left: string)
    requires ArgumentAt(text, first, gap, indent, inner, quoted, left)
    ensures NextArgument(text, first) == Read(Unescaped(inner), left)
  {
    hide ReadQuoted, TrimSpaces, Spaces, Unescaped, FirstBareQuote;
    var here := Spaces(indent) + quoted;
    TrimSpacesIndent(indent, quoted);
    QuotedIsRead(quoted, inner, left);
    if first {
      assert Lead(gap, first) + here == here;
    } else {
      TrimSpacesIndent(gap, [','] + here);
      Assoc(Spaces(gap), [','], here);
      assert ([','] + here)[1..] == here;
    }
  }

  /** A clause names a table if it opens as one and its first three arguments are quoted names, none
      of them empty; nothing else does. */
  lemma TargetExactly(engine: string, cluster: string, database: string, table: string)
    ensures TargetOf(engine) == Target(cluster, database, table)
       <==> && cluster != "" && database != "" && table != ""
            && exists a, b, c, d :: && TrimSpace(engine) == "Distributed(" + a
                                    && Argument(a, true, cluster, b) && Argument(b, false, database, c) && Argument(c, false, table, d)
  {
    hide TrimSpace, NextArgument, Argument;
    var text := TrimSpace(engine);
    forall a, b, c, d
      | text == "Distributed(" + a && Argument(a, true, cluster, b) && Argument(b, false, database, c) && Argument(c, false, table, d)
      ensures cluster != "" && database != "" && table != "" ==> TargetOf(engine) == Target(cluster, database, table) {
      assert text[|ENGINE|..] == a;
      NextArgumentExactly(a, true, cluster, b);
      NextArgumentExactly(b, false, database, c);
      NextArgumentExactly(c, false, table, d);
      ThreeArguments(a, cluster, database, table, b, c, d);
    }
    if TargetOf(engine) == Target(cluster, database, table) {
      var a := text[|ENGINE|..];
      assert text == "Distributed(" + a;
      var b, c, d := ArgumentsInTurn(a, cluster, database, table);
      NextArgumentExactly(a, true, cluster, b);
      NextArgumentExactly(b, false, database, c);
      NextArgumentExactly(c, false, table, d);
    }
  }

  lemma FewerArguments(rest: string, m: nat, n: nat)
    requires m <= n && Arguments(rest, n).Some?
    ensures Arguments(rest, m).Some?
  {
    if Arguments(rest, m).None? {
      ArgumentsStop(rest, m, n);
    }
  }

  lemma ThreeArguments(a: string, x: string, y: string, z: string, b: string, c: string, d: string)
    requires NextArgument(a, true) == Read(x, b) && NextArgument(b, false) == Read(y, c) && NextArgument(c, false) == Read(z, d)
    ensures Arguments(a, 3) == Some(([x, y, z], d))
  {
    hide NextArgument;
    NoArguments(a);
    MoreArguments(a, 0);
    MoreArguments(a, 1);
    MoreArguments(a, 2);
    assert [] + [x] == [x] && [x] + [y] == [x, y] && [x, y] + [z] == [x, y, z];
  }

  lemma ArgumentsInTurn(a: string, x: string, y: string, z: string) returns (b: string, c: string, d: string)
    requires Arguments(a, 3).Some? && Arguments(a, 3).value.0 == [x, y, z]
    ensures NextArgument(a, true) == Read(x, b) && NextArgument(b, false) == Read(y, c) && NextArgument(c, false) == Read(z, d)
  {
    hide NextArgument;
    NoArguments(a);
    FewerArguments(a, 1, 3);
    FewerArguments(a, 2, 3);
    MoreArguments(a, 0);
    MoreArguments(a, 1);
    MoreArguments(a, 2);
    b, c, d := Arguments(a, 1).value.1, Arguments(a, 2).value.1, Arguments(a, 3).value.1;
    var one, two, three := Arguments(a, 1).value.0, Arguments(a, 2).value.0, Arguments(a, 3).value.0;
    assert three[2] == z && three[1] == two[1] == y && three[0] == two[0] == one[0] == x;
  }
}
