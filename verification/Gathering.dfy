/** What a reload gathers before it touches anything: for every source the connection that is to
    serve it, a running one or one just opened. `C` is the connection: a name for one where its
    reloads are interleaved with evaluations, and the object itself where one reload is run. */
module Gathering {
  import opened Options

  /** A source as its file defines it. `fields` stands for everything but the name. */
  datatype Def = Def(name: string, fields: int)

  ghost predicate DistinctNames(config: seq<Def>) {
    forall i, j :: 0 <= i < j < |config| ==> config[i].name != config[j].name
  }

  ghost predicate OnePerName<C>(m: map<string, C>) {
    forall a, b :: a in m && b in m && a != b ==> m[a] != m[b]
  }

  /** A running connection serves a source whose whole definition is unchanged. */
  predicate Keeps<C>(running: map<string, C>, sources: map<string, Def>, d: Def) {
    d.name in running && Get(sources, d.name) == Some(d)
  }

  /** The connection that serves `d` next: the running one if it may be kept, else one just opened. */
  ghost predicate Serves<C>(running: map<string, C>, sources: map<string, Def>, opening: map<string, C>, d: Def, q: C) {
    if Keeps(running, sources, d) then q == running[d.name] else Get(opening, d.name) == Some(q)
  }

  /** `definitions` holds exactly the sources in `done`, by name. */
  ghost predicate Defines(definitions: map<string, Def>, done: seq<Def>) {
    && (forall j :: 0 <= j < |done| ==> Get(definitions, done[j].name) == Some(done[j]))
    && (forall n :: n in definitions ==> definitions[n].name == n && definitions[n] in done)
  }

  /** Each of them has the connection that is to serve it, and no other was opened. */
  ghost predicate Connected<C>(running: map<string, C>, sources: map<string, Def>,
                            next: map<string, C>, opening: map<string, C>, definitions: map<string, Def>) {
    && next.Keys == definitions.Keys
    && (forall n :: n in next ==> definitions[n].name == n && Serves(running, sources, opening, definitions[n], next[n]))
    && (forall n :: n in opening ==> Get(next, n) == Some(opening[n]) && !Keeps(running, sources, definitions[n]))
  }

  /** What a reload holds once it has been through the sources in `done`. */
  ghost predicate Gathered<C>(done: seq<Def>, running: map<string, C>, sources: map<string, Def>,
                           next: map<string, C>, opening: map<string, C>, definitions: map<string, Def>) {
    && OnePerName(opening)
    && Defines(definitions, done)
    && Connected(running, sources, next, opening, definitions)
  }

  ghost predicate NewName(done: seq<Def>, d: Def) {
    forall j :: 0 <= j < |done| ==> done[j].name != d.name
  }

  lemma NewNameAt(config: seq<Def>, i: nat)
    requires i < |config| && DistinctNames(config)
    ensures NewName(config[..i], config[i])
  {
  }

  lemma NothingGathered<C>(running: map<string, C>, sources: map<string, Def>)
    ensures Gathered([], running, sources, map[], map[], map[])
  {
  }

  lemma OpenedOnePerName<C>(done: seq<Def>, running: map<string, C>, sources: map<string, Def>,
                            next: map<string, C>, opening: map<string, C>, definitions: map<string, Def>)
    requires Gathered(done, running, sources, next, opening, definitions)
    ensures OnePerName(opening)
  {
  }

  lemma DefinesMore(definitions: map<string, Def>, done: seq<Def>, d: Def)
    requires Defines(definitions, done) && NewName(done, d)
    ensures Defines(definitions[d.name := d], done + [d]) && d.name !in definitions
  {
  }

  lemma ConnectedMore<C>(running: map<string, C>, sources: map<string, Def>, next: map<string, C>, opening: map<string, C>,
                      definitions: map<string, Def>, d: Def, opening': map<string, C>, q: C)
    requires Connected(running, sources, next, opening, definitions) && d.name !in definitions
    requires opening' == if Keeps(running, sources, d) then opening else opening[d.name := q]
    requires Keeps(running, sources, d) ==> q == running[d.name]
    ensures Connected(running, sources, next[d.name := q], opening', definitions[d.name := d])
  {
    hide Keeps;
    assert d.name !in opening;
    var next', definitions' := next[d.name := q], definitions[d.name := d];
    forall n | n in next' ensures definitions'[n].name == n && Serves(running, sources, opening', definitions'[n], next'[n]) {
      if n != d.name {
        assert Serves(running, sources, opening, definitions[n], next[n]);
      }
    }
  }

  lemma GatheredMore<C>(done: seq<Def>, d: Def, running: map<string, C>, sources: map<string, Def>,
                     next: map<string, C>, opening: map<string, C>, definitions: map<string, Def>, opening': map<string, C>, q: C)
    requires Gathered(done, running, sources, next, opening, definitions) && NewName(done, d)
    requires opening' == if Keeps(running, sources, d) then opening else opening[d.name := q]
    requires Keeps(running, sources, d) ==> q == running[d.name]
    requires !Keeps(running, sources, d) ==> forall n :: n in opening ==> opening[n] != q
    ensures Gathered(done + [d], running, sources, next[d.name := q], opening', definitions[d.name := d])
  {
    DefinesMore(definitions, done, d);
    ConnectedMore(running, sources, next, opening, definitions, d, opening', q);
    hide Defines, Connected, Keeps;
  }

  ghost predicate NewOrKept<C>(running: map<string, C>, next: map<string, C>, opening: map<string, C>) {
    forall n :: n in next ==> (n in opening && next[n] == opening[n]) || (n in running && next[n] == running[n])
  }

  lemma GatheredIsNewOrKept<C>(done: seq<Def>, running: map<string, C>, sources: map<string, Def>,
                            next: map<string, C>, opening: map<string, C>, definitions: map<string, Def>)
    requires Gathered(done, running, sources, next, opening, definitions)
    ensures NewOrKept(running, next, opening)
    ensures forall n :: n in opening ==> n in next && next[n] == opening[n]
  {
    forall n | n in next ensures (n in opening && next[n] == opening[n]) || (n in running && next[n] == running[n]) {
      assert Serves(running, sources, opening, definitions[n], next[n]);
    }
  }

  /** What is gathered is one connection per source, the running ones under their own names. */
  lemma GatheredIsOnePerName<C>(done: seq<Def>, running: map<string, C>, sources: map<string, Def>,
                             next: map<string, C>, opening: map<string, C>, definitions: map<string, Def>)
    requires Gathered(done, running, sources, next, opening, definitions)
    requires OnePerName(running) && running.Values !! opening.Values
    ensures OnePerName(next) && NewOrKept(running, next, opening)
    ensures forall n :: n in running && running[n] in next.Values ==> Get(next, n) == Some(running[n])
    ensures forall n :: n in opening ==> opening[n] in next.Values
  {
    GatheredIsNewOrKept(done, running, sources, next, opening, definitions);
    assert OnePerName(opening);
    hide Gathered, Connected, Defines;
    assert forall n :: n in running ==> running[n] in running.Values;
    assert forall n :: n in opening ==> opening[n] in opening.Values;
  }
}
