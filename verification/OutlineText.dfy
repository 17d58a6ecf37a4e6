/** Indented lines as text: what a line of it says, and how it is written. */
module OutlineText {
  import opened Options
  import opened Outline

  /** The characters Go's strings.TrimSpace removes. */
  predicate IsSpace(c: char) {
    || '\t' <= c <= '\r' || c == ' ' || c as int in {0x85, 0xA0, 0x1680, 0x2028, 0x2029, 0x202F, 0x205F, 0x3000}
    || 0x2000 <= c as int <= 0x200A
  }

  function Split(s: string, sep: char): (parts: seq<string>)
    ensures parts != []
  {
    if s == [] then [[]]
    else
      var rest := Split(s[1..], sep);
      if s[0] == sep then [[]] + rest else [[s[0]] + rest[0]] + rest[1..]
  }

  function TrimLeft(s: string): string {
    if s != [] && IsSpace(s[0]) then TrimLeft(s[1..]) else s
  }

  function TrimRight(s: string): string {
    if s != [] && IsSpace(s[|s| - 1]) then TrimRight(s[..|s| - 1]) else s
  }

  function TrimSpace(s: string): string {
    TrimRight(TrimLeft(s))
  }

  function LeadingSpaces(s: string): nat {
    if s != [] && s[0] == ' ' then 1 + LeadingSpaces(s[1..]) else 0
  }

  /** Everything before the first " (". */
  function BeforeSuffix(s: string): string {
    if |s| < 2 || (s[0] == ' ' && s[1] == '(') then if |s| < 2 then s else []
    else [s[0]] + BeforeSuffix(s[1..])
  }

  /** Both sides of the first separator, or everything and nothing. */
  function Cut(s: string, sep: char): (string, string) {
    if s == [] then ([], [])
    else if s[0] == sep then ([], s[1..])
    else var rest := Cut(s[1..], sep); ([s[0]] + rest.0, rest.1)
  }

  /** A node's kind and what follows it, without the suffix the structure already carries. */
  function SplitNode(line: string): (string, string) {
    Cut(BeforeSuffix(line), ' ')
  }

  function ReadLine(raw: string): Option<Line> {
    if TrimSpace(raw) == [] then None
    else
      var node := SplitNode(TrimSpace(raw));
      Some(Line(LeadingSpaces(raw), node.0, node.1))
  }

  ghost function ReadLines(raws: seq<string>): seq<Line> {
    if raws == [] then []
    else
      var last := ReadLine(raws[|raws| - 1]);
      ReadLines(raws[..|raws| - 1]) + if last.Some? then [last.value] else []
  }

  /** The lines of a text that are not blank. */
  ghost function LinesOf(out: string): seq<Line> {
    ReadLines(Split(out, '\n'))
  }

  // Writing lines, and reading them back.

  function Join(parts: seq<string>, sep: char): string {
    if parts == [] then [] else if |parts| == 1 then parts[0] else parts[0] + [sep] + Join(parts[1..], sep)
  }

  function Spaces(n: nat): string {
    if n == 0 then [] else [' '] + Spaces(n - 1)
  }

  function Name(line: Line): string {
    if line.detail == [] then line.kind else line.kind + [' '] + line.detail
  }

  function WriteLine(line: Line, suffix: string): string {
    Spaces(line.depth) + Name(line) + suffix
  }

  function WriteAll(lines: seq<Line>, suffixes: seq<string>): seq<string>
    requires |suffixes| == |lines|
  {
    seq(|lines|, i requires 0 <= i < |lines| => WriteLine(lines[i], suffixes[i]))
  }

  /** Nothing in it ends a line, nothing trims away, nothing reads as the start of a suffix. */
  ghost predicate Legible(line: Line) {
    && line.kind != [] && (forall i :: 0 <= i < |line.kind| ==> !IsSpace(line.kind[i]))
    && '\n' !in line.detail
    && (line.detail != [] ==> line.detail[0] != '(' && !IsSpace(line.detail[|line.detail| - 1]))
    && NoSuffix(line.detail)
  }

  ghost predicate NoSuffix(s: string) {
    forall i :: 0 <= i < |s| ==> !OpensSuffix(s, i)
  }

  predicate OpensSuffix(s: string, i: nat)
    requires i < |s|
  {
    i + 1 < |s| && s[i] == ' ' && s[i + 1] == '('
  }

  /** What may follow a name: nothing, or " (children 2)" and the like. */
  ghost predicate IsSuffix(s: string) {
    s != [] ==> |s| >= 2 && s[0] == ' ' && s[1] == '(' && '\n' !in s && !IsSpace(s[|s| - 1])
  }

  lemma {:induction false} SplitNone(s: string, sep: char)
    requires sep !in s
    ensures Split(s, sep) == [s]
  {
    if s != [] {
      SplitNone(s[1..], sep);
      assert [s[0]] + s[1..] == s;
    }
  }

  lemma {:induction false} SplitFirst(s: string, sep: char, rest: string)
    requires sep !in s
    ensures Split(s + [sep] + rest, sep) == [s] + Split(rest, sep)
  {
    var all := s + [sep] + rest;
    if s == [] {
      assert all[1..] == rest;
    } else {
      SplitFirst(s[1..], sep, rest);
      assert all[1..] == s[1..] + [sep] + rest;
      assert ([s[1..]] + Split(rest, sep))[1..] == Split(rest, sep);
      assert [s[0]] + s[1..] == s;
    }
  }

  lemma {:induction false} SplitJoin(parts: seq<string>, sep: char)
    requires parts != [] && forall i :: 0 <= i < |parts| ==> sep !in parts[i]
    ensures Split(Join(parts, sep), sep) == parts
  {
    if |parts| == 1 {
      SplitNone(parts[0], sep);
    } else {
      SplitJoin(parts[1..], sep);
      SplitFirst(parts[0], sep, Join(parts[1..], sep));
    }
  }

  lemma {:induction false} TrimIndent(n: nat, s: string)
    requires s != [] && !IsSpace(s[0]) && !IsSpace(s[|s| - 1])
    ensures TrimSpace(Spaces(n) + s) == s
    ensures LeadingSpaces(Spaces(n) + s) == n
  {
    TrimLeftIndent(n, s);
  }

  lemma {:induction false} TrimLeftIndent(n: nat, s: string)
    requires s != [] && !IsSpace(s[0])
    ensures TrimLeft(Spaces(n) + s) == s
    ensures LeadingSpaces(Spaces(n) + s) == n
  {
    if n == 0 {
      assert Spaces(n) + s == s;
    } else {
      TrimLeftIndent(n - 1, s);
      assert (Spaces(n) + s)[1..] == Spaces(n - 1) + s;
    }
  }

  lemma {:induction false} DropSuffix(name: string, suffix: string)
    requires NoSuffix(name) && IsSuffix(suffix) && (name != [] ==> name[|name| - 1] != ' ')
    ensures BeforeSuffix(name + suffix) == name
  {
    if name == [] {
      assert name + suffix == suffix;
    } else {
      var all := name + suffix;
      var rest := name[1..];
      forall i | 0 <= i < |rest| ensures !OpensSuffix(rest, i) {
        assert !OpensSuffix(name, i + 1);
      }
      DropSuffix(rest, suffix);
      assert all[1..] == rest + suffix;
      assert !OpensSuffix(name, 0);
    }
  }

  lemma {:induction false} CutAt(kind: string, sep: char, detail: string)
    requires sep !in kind
    ensures Cut(kind + [sep] + detail, sep) == (kind, detail)
    ensures Cut(kind, sep) == (kind, [])
  {
    var all := kind + [sep] + detail;
    if kind == [] {
      assert all[1..] == detail;
    } else {
      CutAt(kind[1..], sep, detail);
      assert all[1..] == kind[1..] + [sep] + detail;
      assert [kind[0]] + kind[1..] == kind;
    }
  }

  lemma NameIsWhole(line: Line)
    requires Legible(line)
    ensures Name(line) != [] && NoSuffix(Name(line)) && '\n' !in Name(line)
    ensures !IsSpace(Name(line)[0]) && !IsSpace(Name(line)[|Name(line)| - 1])
  {
    var name := Name(line);
    var n := |line.kind|;
    assert IsSpace('\n') && IsSpace(' ');
    forall i | 0 <= i < |name| ensures !OpensSuffix(name, i) {
      if i < n {
        assert name[i] == line.kind[i];
      } else if i > n {
        assert !OpensSuffix(line.detail, i - n - 1);
        assert name[i] == line.detail[i - n - 1];
      }
    }
  }

  /** A legible line reads back as itself, whatever suffix it carried. */
  lemma ReadWritten(line: Line, suffix: string)
    requires Legible(line) && IsSuffix(suffix)
    ensures ReadLine(WriteLine(line, suffix)) == Some(line)
    ensures '\n' !in WriteLine(line, suffix)
  {
    NameIsWhole(line);
    var s := Name(line) + suffix;
    assert WriteLine(line, suffix) == Spaces(line.depth) + s;
    TrimIndent(line.depth, s);
    DropSuffix(Name(line), suffix);
    assert IsSpace(' ');
    CutAt(line.kind, ' ', line.detail);
    NoNewline(line.depth);
  }

  lemma {:induction false} NoNewline(n: nat)
    ensures '\n' !in Spaces(n)
  {
    if n > 0 {
      NoNewline(n - 1);
    }
  }

  lemma {:induction false} ReadAllWritten(lines: seq<Line>, suffixes: seq<string>)
    requires |suffixes| == |lines|
    requires forall i :: 0 <= i < |lines| ==> Legible(lines[i]) && IsSuffix(suffixes[i])
    ensures ReadLines(WriteAll(lines, suffixes)) == lines
  {
    hide ReadLine, WriteLine, Legible, IsSuffix;
    if lines != [] {
      var n := |lines| - 1;
      ReadAllWritten(lines[..n], suffixes[..n]);
      ReadWritten(lines[n], suffixes[n]);
      assert WriteAll(lines, suffixes)[..n] == WriteAll(lines[..n], suffixes[..n]);
    }
  }

  /** A text that was written out line by line is read as those lines. */
  lemma LinesOfWritten(lines: seq<Line>, suffixes: seq<string>)
    requires lines != [] && |suffixes| == |lines|
    requires forall i :: 0 <= i < |lines| ==> Legible(lines[i]) && IsSuffix(suffixes[i])
    ensures LinesOf(Join(WriteAll(lines, suffixes), '\n')) == lines
  {
    var raws := WriteAll(lines, suffixes);
    forall i | 0 <= i < |raws| ensures '\n' !in raws[i] {
      ReadWritten(lines[i], suffixes[i]);
    }
    SplitJoin(raws, '\n');
    ReadAllWritten(lines, suffixes);
  }

  // What any line says, legible or not.

  ghost predicate Blank(s: string) {
    forall i :: 0 <= i < |s| ==> IsSpace(s[i])
  }

  lemma {:induction false} TrimLeftSplits(s: string) returns (lead: string)
    ensures s == lead + TrimLeft(s) && Blank(lead) && (TrimLeft(s) == [] || !IsSpace(TrimLeft(s)[0]))
  {
    if s != [] && IsSpace(s[0]) {
      lead := TrimLeftSplits(s[1..]);
      assert s == [s[0]] + s[1..];
      Assoc([s[0]], lead, TrimLeft(s[1..]));
      lead := [s[0]] + lead;
    } else {
      lead := [];
    }
  }

  lemma {:induction false} TrimRightSplits(s: string) returns (trail: string)
    ensures s == TrimRight(s) + trail && Blank(trail) && (TrimRight(s) == [] || !IsSpace(TrimRight(s)[|TrimRight(s)| - 1]))
    ensures TrimRight(s) != [] ==> TrimRight(s)[0] == s[0]
  {
    if s != [] && IsSpace(s[|s| - 1]) {
      var n := |s| - 1;
      trail := TrimRightSplits(s[..n]);
      assert s == s[..n] + [s[n]];
      Assoc(TrimRight(s[..n]), trail, [s[n]]);
      trail := trail + [s[n]];
    } else {
      trail := [];
    }
  }

  lemma TrimSpaceSplits(s: string) returns (lead: string, trail: string)
    ensures s == lead + (TrimSpace(s) + trail) && Blank(lead) && Blank(trail)
    ensures TrimSpace(s) != [] ==> !IsSpace(TrimSpace(s)[0]) && !IsSpace(TrimSpace(s)[|TrimSpace(s)| - 1])
  {
    hide IsSpace;
    lead := TrimLeftSplits(s);
    trail := TrimRightSplits(TrimLeft(s));
  }

  lemma {:induction false} LeadingSpacesSplits(s: string) returns (tail: string)
    ensures s == Spaces(LeadingSpaces(s)) + tail && (tail == [] || tail[0] != ' ')
  {
    if s != [] && s[0] == ' ' {
      tail := LeadingSpacesSplits(s[1..]);
      assert s == [' '] + s[1..];
      Assoc([' '], Spaces(LeadingSpaces(s[1..])), tail);
    } else {
      tail := s;
    }
  }

  /** The suffix begins at the first place one opens. */
  lemma {:induction false} BeforeSuffixSplits(s: string) returns (suffix: string)
    ensures s == BeforeSuffix(s) + suffix && (suffix == [] || OpensSuffix(suffix, 0))
    ensures forall i :: 0 <= i < |BeforeSuffix(s)| ==> !OpensSuffix(s, i)
  {
    if |s| < 2 {
      suffix := [];
    } else if s[0] == ' ' && s[1] == '(' {
      suffix := s;
    } else {
      suffix := BeforeSuffixSplits(s[1..]);
      assert s == [s[0]] + s[1..];
      Assoc([s[0]], BeforeSuffix(s[1..]), suffix);
      forall i | 0 <= i < |BeforeSuffix(s)| ensures !OpensSuffix(s, i) {
        assert i > 0 ==> !OpensSuffix(s[1..], i - 1);
      }
    }
  }

  lemma {:induction false} CutSplits(s: string, sep: char)
    requires sep in s
    ensures s == Cut(s, sep).0 + ([sep] + Cut(s, sep).1) && sep !in Cut(s, sep).0
  {
    if s[0] != sep {
      CutSplits(s[1..], sep);
      assert s == [s[0]] + s[1..];
    }
  }

  /** A line that is not blank is a name among spaces, cut off where the first suffix opens: its kind
      is what stands before the first space of that, and its detail what stands behind. */
  ghost predicate SaysLine(raw: string, line: Line, lead: string, name: string, suffix: string, trail: string) {
    && raw == lead + ((name + suffix) + trail) && Blank(lead) && Blank(trail)
    && name + suffix != [] && !IsSpace((name + suffix)[0]) && !IsSpace((name + suffix)[|name + suffix| - 1])
    && (suffix == [] || OpensSuffix(suffix, 0)) && (forall i :: 0 <= i < |name| ==> !OpensSuffix(name + suffix, i))
    && ' ' !in line.kind && (name == line.kind + ([' '] + line.detail) || (name == line.kind && line.detail == []))
  }

  /** A line is read unless it is blank; it says this, and is as deep as the spaces it begins with. */
  lemma ReadLineExactly(raw: string)
    ensures ReadLine(raw).None? <==> Blank(raw)
    ensures ReadLine(raw).Some? ==>
              && (exists lead, name, suffix, trail :: SaysLine(raw, ReadLine(raw).value, lead, name, suffix, trail))
              && (exists tail :: raw == Spaces(ReadLine(raw).value.depth) + tail && (tail == [] || tail[0] != ' '))
  {
    hide IsSpace, TrimSpace, BeforeSuffix, LeadingSpaces, Spaces, OpensSuffix, Cut;
    var lead, trail := TrimSpaceSplits(raw);
    var text := TrimSpace(raw);
    if text == [] {
      assert raw == lead + trail;
    } else {
      assert raw[|lead|] == text[0];
      var suffix := BeforeSuffixSplits(text);
      var tail := LeadingSpacesSplits(raw);
      var name := BeforeSuffix(text);
      NameSplits(name);
      assert SaysLine(raw, ReadLine(raw).value, lead, name, suffix, trail);
    }
  }

  lemma NameSplits(name: string)
    ensures ' ' !in Cut(name, ' ').0
    ensures name == Cut(name, ' ').0 + ([' '] + Cut(name, ' ').1) || (name == Cut(name, ' ').0 && Cut(name, ' ').1 == [])
  {
    if ' ' in name {
      CutSplits(name, ' ');
    } else {
      CutAt(name, ' ', []);
    }
  }
}
