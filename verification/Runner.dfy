/** What the runner does to its connections when a configuration is loaded. */
module Runners {
  import opened Options
  import opened Gathering

  class Querier {
    /** How often it was closed. */
    var closes: nat

    constructor ()
      ensures closes == 0
    {
      closes := 0;
    }

    method Close()
      modifies this
      ensures closes == old(closes) + 1
    {
      closes := closes + 1;
    }
  }

  type Queriers = map<string, Querier>

  /** Closes every connection of `m` except those `keep` holds under the same name. */
  method CloseExcept(m: Queriers, keep: Queriers)
    requires OnePerName(m)
    modifies m.Values
    ensures forall n :: n in m ==> m[n].closes == old(m[n].closes) + if Get(keep, n) == Some(m[n]) then 0 else 1
  {
    var todo := m.Keys;
    while todo != {}
      invariant todo <= m.Keys
      invariant forall n :: n in m ==> m[n].closes == old(m[n].closes) + if n in todo || Get(keep, n) == Some(m[n]) then 0 else 1
      decreases |todo|
    {
      var n := Pick(todo);
      assert m[n] in m.Values;
      if n !in keep || keep[n] != m[n] {
        m[n].Close();
      }
      todo := todo - {n};
    }
  }

  /** A source whose definition, all of it, is the one it was opened under. */
  predicate Unchanged(running: Queriers, sources: map<string, Def>, d: Def) {
    d.name in running && d.name in sources && sources[d.name] == d
  }

  /** The first source that has to be opened and cannot be. */
  ghost predicate FirstRefused(config: seq<Def>, running: Queriers, sources: map<string, Def>, opens: Def -> bool, d: Def) {
    exists i :: 0 <= i < |config| && config[i] == d && !Unchanged(running, sources, d) && !opens(d)
                && forall j :: 0 <= j < i ==> Unchanged(running, sources, config[j]) || opens(config[j])
  }

  lemma GatheredServes(config: seq<Def>, running: Queriers, sources: map<string, Def>,
                       next: Queriers, opening: Queriers, definitions: map<string, Def>)
    requires Gathered(config, running, sources, next, opening, definitions)
    ensures forall i :: 0 <= i < |config| ==>
      var d := config[i];
      d.name in next && Get(definitions, d.name) == Some(d)
      && if Unchanged(running, sources, d) then next[d.name] == running[d.name] else Get(opening, d.name) == Some(next[d.name])
  {
    forall i | 0 <= i < |config|
      ensures config[i].name in next && Serves(running, sources, opening, config[i], next[config[i].name]) {
      assert Get(definitions, config[i].name) == Some(config[i]);
    }
  }

  class Runner {
    var queriers: Queriers
    var sources: map<string, Def>
    var rules: nat

    ghost predicate Valid()
      reads this, queriers.Values
    {
      && sources.Keys == queriers.Keys
      && OnePerName(queriers)
      && forall n :: n in queriers ==> queriers[n].closes == 0
    }

    constructor ()
      ensures Valid() && queriers == map[]
    {
      queriers, sources, rules := map[], map[], 0;
    }

    /** Keeps or opens a connection for every source, and closes what it opened if one will not open. */
    method Gather(config: seq<Def>, opens: Def -> bool)
      returns (failed: Option<Def>, next: Queriers, opening: Queriers, definitions: map<string, Def>)
      requires Valid() && DistinctNames(config)
      ensures forall n :: n in opening ==> fresh(opening[n]) && opening[n].closes == if failed.Some? then 1 else 0
      ensures failed.Some? ==> FirstRefused(config, queriers, sources, opens, failed.value)
      ensures failed.None? ==> Gathered(config, queriers, sources, next, opening, definitions)
      ensures failed.None? ==> forall i :: 0 <= i < |config| ==> Unchanged(queriers, sources, config[i]) || opens(config[i])
    {
      hide Gathered, DistinctNames, NewName;
      next, opening, definitions := map[], map[], map[];
      NothingGathered(queriers, sources);
      for i := 0 to |config|
        invariant forall n :: n in opening ==> fresh(opening[n]) && opening[n].closes == 0
        invariant Gathered(config[..i], queriers, sources, next, opening, definitions)
        invariant forall j :: 0 <= j < i ==> Unchanged(queriers, sources, config[j]) || opens(config[j])
      {
        var src := config[i];
        NewNameAt(config, i);
        assert config[..i + 1] == config[..i] + [src];
        if src.name in queriers && sources[src.name] == src {
          GatheredMore(config[..i], src, queriers, sources, next, opening, definitions, opening, queriers[src.name]);
          next, definitions := next[src.name := queriers[src.name]], definitions[src.name := src];
          continue;
        }
        if !opens(src) {
          OpenedOnePerName(config[..i], queriers, sources, next, opening, definitions);
          CloseExcept(opening, map[]);
          return Some(src), next, opening, definitions;
        }
        var q := new Querier();
        GatheredMore(config[..i], src, queriers, sources, next, opening, definitions, opening[src.name := q], q);
        opening, next, definitions := opening[src.name := q], next[src.name := q], definitions[src.name := src];
      }
      assert config[..|config|] == config;
      failed := None;
    }

    /** Opens what the configuration needs, hands it over, and closes what is left. `opens` says
        which sources can be opened, and `count` how many rules the configuration holds. */
    method Connect(config: seq<Def>, count: nat, opens: Def -> bool)
      returns (failed: Option<Def>, acquired: Queriers)
      requires Valid() && DistinctNames(config)
      modifies this, queriers.Values
      ensures forall n :: n in acquired ==> fresh(acquired[n])
      ensures Valid()
      // Refused: nothing that was running has moved, and nothing that was opened is left open.
      ensures failed.Some? ==> queriers == old(queriers) && sources == old(sources) && rules == old(rules)
      ensures failed.Some? ==> FirstRefused(config, queriers, sources, opens, failed.value)
      ensures failed.Some? ==> forall n :: n in acquired ==> acquired[n].closes == 1
      // Loaded: each source is served by the connection it already had or by a new one,
      // and a running connection is closed, once, exactly when nothing is served by it.
      ensures failed.None? ==> rules == count && Gathered(config, old(queriers), old(sources), queriers, acquired, sources)
      ensures failed.None? ==> forall i :: 0 <= i < |config| ==>
        var d := config[i];
        d.name in queriers && sources[d.name] == d
        && if Unchanged(old(queriers), old(sources), d) then queriers[d.name] == old(queriers)[d.name]
           else fresh(queriers[d.name]) && opens(d)
      ensures failed.None? ==> forall n :: n in old(queriers) ==>
        (old(queriers)[n].closes == if old(queriers)[n] in queriers.Values then 0 else 1)
    {
      var next, definitions;
      failed, next, acquired, definitions := Gather(config, opens);
      if failed.Some? {
        return;
      }
      GatheredIsOnePerName(config, queriers, sources, next, acquired, definitions);
      GatheredServes(config, queriers, sources, next, acquired, definitions);
      assert NewOrKept(queriers, next, acquired);
      CloseExcept(queriers, next);
      queriers, sources, rules := next, definitions, count;
    }
  }
}
