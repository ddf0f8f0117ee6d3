/** The per-directive edits of the rewrite rules in src/bin/nginx_config_mod/modify.rs:
    the bodies of the closures each rule hands to the tree walk, the loops inside
    them, and the parsing of the rules' `orig=dest` arguments. */
module Rules {
  import opened Wrappers
  import opened Text
  import opened Tree
  import opened Errors
  import opened Foreign
  import opened Hostnames

  // ---------------------------------------------------------------------------
  // Rule arguments

  /** The `(orig, dest)` pairs of `orig=dest` arguments, in argument order; the
      first argument without `=` fails the rule before the tree is touched. */
  function Pairs(items: seq<string>, kind: RuleKind): (r: Result<seq<(string, string)>, Error>)
    ensures r.Err? ==> r.error == MissingTarget(kind)
    decreases |items|
  {
    if items == [] then Ok([])
    else
      match Pairs(items[..|items| - 1], kind)
      case Err(e) => Err(e)
      case Ok(init) =>
        match SplitOnce(items[|items| - 1], '=')
        case (_, None) => Err(MissingTarget(kind))
        case (orig, Some(dest)) => Ok(init + [(orig, dest)])
  }

  /** Pairs succeeds exactly when every argument holds a `=`, and then splits each
      argument, in order, at its first `=`. */
  lemma {:induction false} PairsSpec(items: seq<string>, kind: RuleKind)
    ensures Pairs(items, kind).Ok? <==> forall i :: 0 <= i < |items| ==> '=' in items[i]
    ensures Pairs(items, kind).Ok? ==>
      var ps := Pairs(items, kind).value;
      |ps| == |items| &&
      forall i :: 0 <= i < |items| ==> items[i] == ps[i].0 + "=" + ps[i].1 && '=' !in ps[i].0
    decreases |items|
  {
    if items != [] {
      var init, last := items[..|items| - 1], items[|items| - 1];
      PairsSpec(init, kind);
      assert forall i :: 0 <= i < |init| ==> init[i] == items[i];
      if Pairs(items, kind).Ok? {
        var ps, ps0 := Pairs(items, kind).value, Pairs(init, kind).value;
        var split := SplitOnce(last, '=');
        assert ps == ps0 + [(split.0, split.1.value)];
        forall i | 0 <= i < |items|
          ensures items[i] == ps[i].0 + "=" + ps[i].1 && '=' !in ps[i].0
        {
          if i < |init| {
            assert ps[i] == ps0[i];
          } else {
            assert ps[i] == (split.0, split.1.value);
          }
        }
      }
    }
  }

  /** One pass of the argument loop. */
  lemma PairsStep(items: seq<string>, i: nat, kind: RuleKind, pairs: seq<(string, string)>)
    requires i < |items| && Pairs(items[..i], kind) == Ok(pairs)
    ensures SplitOnce(items[i], '=').1.None? ==> Pairs(items, kind) == Err(MissingTarget(kind))
    ensures var split := SplitOnce(items[i], '=');
      split.1.Some? ==> Pairs(items[..i + 1], kind) == Ok(pairs + [(split.0, split.1.value)])
  {
    assert items[..i + 1][..i] == items[..i];
    if SplitOnce(items[i], '=').1.None? {
      PairsPrefixErr(items, i + 1, kind);
    }
  }

  /** The method form of the argument loop each rule starts with. */
  method ParsePairs(items: seq<string>, kind: RuleKind) returns (r: Result<seq<(string, string)>, Error>)
    ensures r == Pairs(items, kind)
  {
    var pairs: seq<(string, string)> := [];
    var i := 0;
    while i < |items|
      invariant 0 <= i <= |items|
      invariant Pairs(items[..i], kind) == Ok(pairs)
    {
      PairsStep(items, i, kind, pairs);
      var split := SplitOnce(items[i], '=');
      if split.1.None? {
        return Err(MissingTarget(kind));
      }
      pairs := pairs + [(split.0, split.1.value)];
      i := i + 1;
    }
    assert items[..i] == items;
    r := Ok(pairs);
  }

  lemma {:induction false} PairsPrefixErr(items: seq<string>, n: nat, kind: RuleKind)
    requires n <= |items| && Pairs(items[..n], kind).Err?
    ensures Pairs(items, kind) == Pairs(items[..n], kind)
    decreases |items|
  {
    if n < |items| {
      assert items[..|items| - 1][..n] == items[..n];
      PairsPrefixErr(items[..|items| - 1], n, kind);
    } else {
      assert items[..n] == items;
    }
  }

  /** The argument loop of the three regex rules: as `Pairs`, but each pattern is
      also compiled as it is reached, and the first argument that lacks `=` or
      whose pattern does not compile fails the rule. */
  function RegexPairs(env: Env, items: seq<string>, kind: RuleKind): (r: Result<seq<(string, string)>, Error>)
    ensures r.Err? ==> r.error == MissingTarget(kind) || r.error.InvalidRegex?
    decreases |items|
  {
    if items == [] then Ok([])
    else
      match RegexPairs(env, items[..|items| - 1], kind)
      case Err(e) => Err(e)
      case Ok(init) =>
        match SplitOnce(items[|items| - 1], '=')
        case (_, None) => Err(MissingTarget(kind))
        case (orig, Some(dest)) =>
          match env.regexError(orig)
          case Some(e) => Err(InvalidRegex(orig, e))
          case None => Ok(init + [(orig, dest)])
  }

  /** Every pattern of the pairs compiles. */
  predicate AllCompile(env: Env, ps: seq<(string, string)>) {
    forall i :: 0 <= i < |ps| ==> env.regexError(ps[i].0).None?
  }

  lemma AllCompileSnoc(env: Env, ps: seq<(string, string)>, p: (string, string))
    ensures AllCompile(env, ps + [p]) <==> AllCompile(env, ps) && env.regexError(p.0).None?
  {
    var all := ps + [p];
    assert forall i :: 0 <= i < |ps| ==> all[i] == ps[i];
    assert all[|ps|] == p;
  }

  /** The regex loop succeeds exactly when the plain split succeeds and every
      pattern compiles, and then yields the same pairs. */
  lemma {:induction false} RegexPairsSpec(env: Env, items: seq<string>, kind: RuleKind)
    ensures RegexPairs(env, items, kind).Ok? <==>
      Pairs(items, kind).Ok? && AllCompile(env, Pairs(items, kind).value)
    ensures RegexPairs(env, items, kind).Ok? ==> RegexPairs(env, items, kind) == Pairs(items, kind)
    decreases |items|
  {
    if items != [] {
      var init := items[..|items| - 1];
      RegexPairsSpec(env, init, kind);
      var split := SplitOnce(items[|items| - 1], '=');
      if Pairs(init, kind).Ok? && split.1.Some? {
        var ps := Pairs(init, kind).value;
        assert Pairs(items, kind).value == ps + [(split.0, split.1.value)];
        AllCompileSnoc(env, ps, (split.0, split.1.value));
      }
    }
  }

  /** The method form of the regex rules' argument loop. */
  method ParseRegexPairs(env: Env, items: seq<string>, kind: RuleKind) returns (r: Result<seq<(string, string)>, Error>)
    ensures r == RegexPairs(env, items, kind)
  {
    var regexes: seq<(string, string)> := [];
    var i := 0;
    while i < |items|
      invariant 0 <= i <= |items|
      invariant RegexPairs(env, items[..i], kind) == Ok(regexes)
    {
      RegexPairsStep(env, items, i, kind, regexes);
      var split := SplitOnce(items[i], '=');
      if split.1.None? {
        return Err(MissingTarget(kind));
      }
      var compiled := env.regexError(split.0);
      if compiled.Some? {
        return Err(InvalidRegex(split.0, compiled.value));
      }
      regexes := regexes + [(split.0, split.1.value)];
      i := i + 1;
    }
    assert items[..i] == items;
    r := Ok(regexes);
  }

  /** One pass of the regex rules' argument loop. */
  lemma RegexPairsStep(env: Env, items: seq<string>, i: nat, kind: RuleKind, regexes: seq<(string, string)>)
    requires i < |items| && RegexPairs(env, items[..i], kind) == Ok(regexes)
    ensures SplitOnce(items[i], '=').1.None? ==> RegexPairs(env, items, kind) == Err(MissingTarget(kind))
    ensures var split := SplitOnce(items[i], '=');
      split.1.Some? && env.regexError(split.0).Some? ==>
        RegexPairs(env, items, kind) == Err(InvalidRegex(split.0, env.regexError(split.0).value))
    ensures var split := SplitOnce(items[i], '=');
      split.1.Some? && env.regexError(split.0).None? ==>
        RegexPairs(env, items[..i + 1], kind) == Ok(regexes + [(split.0, split.1.value)])
  {
    assert items[..i + 1][..i] == items[..i];
    if RegexPairs(env, items[..i + 1], kind).Err? {
      RegexPairsPrefixErr(env, items, i + 1, kind);
    }
  }

  lemma {:induction false} RegexPairsPrefixErr(env: Env, items: seq<string>, n: nat, kind: RuleKind)
    requires n <= |items| && RegexPairs(env, items[..n], kind).Err?
    ensures RegexPairs(env, items, kind) == RegexPairs(env, items[..n], kind)
    decreases |items|
  {
    if n < |items| {
      assert items[..|items| - 1][..n] == items[..n];
      RegexPairsPrefixErr(env, items[..|items| - 1], n, kind);
    } else {
      assert items[..n] == items;
    }
  }

  /** Inserting the pairs into a `HashMap` in order: a later duplicate replaces an
      earlier one. */
  function Mapping(pairs: seq<(string, string)>): (m: map<string, string>)
    ensures forall i :: 0 <= i < |pairs| ==> pairs[i].0 in m
    ensures forall k :: k in m ==> exists i :: 0 <= i < |pairs| && pairs[i].0 == k
    decreases |pairs|
  {
    if pairs == [] then map[]
    else
      var m := Mapping(pairs[..|pairs| - 1]);
      var last := pairs[|pairs| - 1];
      assert forall i :: 0 <= i < |pairs| - 1 ==> pairs[..|pairs| - 1][i] == pairs[i];
      m[last.0 := last.1]
  }

  /** The value stored for a key is that of its last pair. */
  lemma {:induction false} MappingLastWins(pairs: seq<(string, string)>, i: nat)
    requires i < |pairs|
    requires forall j :: i < j < |pairs| ==> pairs[j].0 != pairs[i].0
    ensures Mapping(pairs)[pairs[i].0] == pairs[i].1
    decreases |pairs|
  {
    if i < |pairs| - 1 {
      var init := pairs[..|pairs| - 1];
      assert init[i] == pairs[i];
      MappingLastWins(init, i);
    }
  }

  /** An order in which a `HashMap` may yield its entries: each entry exactly once. */
  predicate IsIterationOrder(order: seq<(string, string)>, m: map<string, string>) {
    && |order| == |m|
    && (forall i :: 0 <= i < |order| ==> order[i].0 in m && m[order[i].0] == order[i].1)
    && (forall i, j :: 0 <= i < j < |order| ==> order[i].0 != order[j].0)
  }

  /** The entries taken so far, with `rest` the keys not yet taken. */
  ghost predicate OrderSoFar(order: seq<(string, string)>, rest: set<string>, m: map<string, string>) {
    && rest <= m.Keys
    && |order| + |rest| == |m|
    && (forall i :: 0 <= i < |order| ==> order[i].0 in m && order[i].0 !in rest && m[order[i].0] == order[i].1)
    && (forall i, j :: 0 <= i < j < |order| ==> order[i].0 != order[j].0)
    && (forall k :: k in m && k !in rest ==> exists i :: 0 <= i < |order| && order[i].0 == k)
  }

  /** Iterating a `HashMap`: the entries come in an order the model leaves open. */
  method IterationOrder(m: map<string, string>) returns (order: seq<(string, string)>)
    ensures IsIterationOrder(order, m)
    ensures forall k :: k in m ==> exists i :: 0 <= i < |order| && order[i].0 == k
  {
    order := [];
    var rest := m.Keys;
    while rest != {}
      invariant OrderSoFar(order, rest, m)
      decreases |rest|
    {
      var k :| k in rest;
      OrderStep(order, rest, m, k);
      order := order + [(k, m[k])];
      rest := rest - {k};
    }
    assert m.Keys == m.Keys - rest;
  }

  /** Taking one more key keeps `OrderSoFar`. */
  lemma OrderStep(order: seq<(string, string)>, rest: set<string>, m: map<string, string>, k: string)
    requires OrderSoFar(order, rest, m) && k in rest
    ensures OrderSoFar(order + [(k, m[k])], rest - {k}, m)
  {
    var order', rest' := order + [(k, m[k])], rest - {k};
    forall k' | k' in m && k' !in rest' ensures exists i :: 0 <= i < |order'| && order'[i].0 == k' {
      if k' == k {
        assert order'[|order'| - 1].0 == k;
      } else {
        var i :| 0 <= i < |order| && order[i].0 == k';
        assert order'[i].0 == k';
      }
    }
  }

  /** Every map has such an order. */
  lemma {:induction false} IterationOrderExists(m: map<string, string>)
    ensures exists order :: IsIterationOrder(order, m)
    decreases |m|
  {
    if m == map[] {
      assert IsIterationOrder([], m);
    } else {
      var k :| k in m;
      var rest := m - {k};
      assert rest.Keys == m.Keys - {k};
      assert |rest| == |rest.Keys| && |m| == |m.Keys|;
      IterationOrderExists(rest);
      var o :| IsIterationOrder(o, rest);
      ConsOrder(k, m, o);
    }
  }

  /** An entry in front of an order of the rest of the map. */
  lemma ConsOrder(k: string, m: map<string, string>, o: seq<(string, string)>)
    requires k in m && IsIterationOrder(o, m - {k})
    ensures IsIterationOrder([(k, m[k])] + o, m)
  {
    var rest := m - {k};
    var order := [(k, m[k])] + o;
    assert rest.Keys == m.Keys - {k};
    assert |rest| == |rest.Keys| && |m| == |m.Keys|;
    assert |order| == |m|;
    forall i | 1 <= i < |order|
      ensures order[i].0 in m && m[order[i].0] == order[i].1 && order[i].0 != k
    {
      assert order[i] == o[i - 1];
    }
    forall i, j | 0 <= i < j < |order| ensures order[i].0 != order[j].0 {
      if i > 0 {
        assert order[i] == o[i - 1] && order[j] == o[j - 1];
      }
    }
  }

  /** The variable map of `run`: `name=value` sets `name`, a bare `name` maps to the
      empty string, and a later duplicate wins. */
  function VarMap(items: seq<string>): map<string, string>
    decreases |items|
  {
    if items == [] then map[]
    else
      var split := SplitOnce(items[|items| - 1], '=');
      VarMap(items[..|items| - 1])[split.0 := match split.1 case Some(v) => v case None => ""]
  }

  lemma {:induction false} VarMapLastWins(items: seq<string>, i: nat)
    requires i < |items|
    requires forall j :: i < j < |items| ==> SplitOnce(items[j], '=').0 != SplitOnce(items[i], '=').0
    ensures SplitOnce(items[i], '=').0 in VarMap(items)
    ensures VarMap(items)[SplitOnce(items[i], '=').0]
         == match SplitOnce(items[i], '=').1 case Some(v) => v case None => ""
    ensures '=' !in items[i] ==> VarMap(items)[items[i]] == ""
    decreases |items|
  {
    if i < |items| - 1 {
      var init := items[..|items| - 1];
      assert init[i] == items[i];
      VarMapLastWins(init, i);
    }
  }

  /** The map's keys are exactly the names the arguments set. */
  lemma {:induction false} VarMapKeys(items: seq<string>, k: string)
    ensures k in VarMap(items) <==> exists j :: 0 <= j < |items| && SplitOnce(items[j], '=').0 == k
    decreases |items|
  {
    if items != [] {
      var n := |items| - 1;
      var split := SplitOnce(items[n], '=');
      VarMapKeys(items[..n], k);
      assert VarMap(items) == VarMap(items[..n])[split.0 := match split.1 case Some(v) => v case None => ""];
      SetNamesSnoc(items, items[..n], k);
    }
  }

  /** Some argument sets `k` exactly when one before the last does or the last does. */
  lemma SetNamesSnoc(items: seq<string>, init: seq<string>, k: string)
    requires |init| + 1 == |items| && init == items[..|init|]
    ensures (exists j :: 0 <= j < |items| && SplitOnce(items[j], '=').0 == k)
        <==> (exists j :: 0 <= j < |init| && SplitOnce(init[j], '=').0 == k)
             || SplitOnce(items[|init|], '=').0 == k
  {
    assert forall j :: 0 <= j < |init| ==> init[j] == items[j];
  }

  /** The method form of the `set_var` loop of `run`. */
  method ParseVars(items: seq<string>) returns (vars: map<string, string>)
    ensures vars == VarMap(items)
  {
    vars := map[];
    for i := 0 to |items|
      invariant vars == VarMap(items[..i])
    {
      assert items[..i + 1][..i] == items[..i];
      var split := SplitOnce(items[i], '=');
      vars := vars[split.0 := match split.1 case Some(v) => v case None => ""];
    }
    assert items[..|items|] == items;
  }

  // ---------------------------------------------------------------------------
  // Regex substitution

  /** The `for (regex, repl) in &regexes` loop: each regex replaces its first
      match in the output of the previous one. */
  function ApplyRegexes(env: Env, s: string, regexes: seq<(string, string)>): string
    decreases |regexes|
  {
    if regexes == [] then s
    else
      var r := regexes[|regexes| - 1];
      env.regexReplace(r.0, ApplyRegexes(env, s, regexes[..|regexes| - 1]), r.1)
  }

  /** Running two regex lists one after the other is running their concatenation. */
  lemma {:induction false} ApplyRegexesAppend(env: Env, s: string, a: seq<(string, string)>, b: seq<(string, string)>)
    ensures ApplyRegexes(env, s, a + b) == ApplyRegexes(env, ApplyRegexes(env, s, a), b)
    decreases |b|
  {
    if b == [] {
      assert a + b == a;
    } else {
      assert (a + b)[..|a + b| - 1] == a + b[..|b| - 1];
      ApplyRegexesAppend(env, s, a, b[..|b| - 1]);
    }
  }

  /** The first regex sees the original text; the rest see its output. */
  lemma ApplyRegexesCons(env: Env, s: string, r: (string, string), rest: seq<(string, string)>)
    ensures ApplyRegexes(env, s, [r] + rest) == ApplyRegexes(env, env.regexReplace(r.0, s, r.1), rest)
  {
    ApplyRegexesAppend(env, s, [r], rest);
    assert [r][..0] == [];
  }

  /** Sequential, not simultaneous: `A=B` then `B=C` turns `A` into `C`. */
  lemma RegexChain(env: Env)
    requires env.regexReplace("A", "A", "B") == "B"
    requires env.regexReplace("B", "B", "C") == "C"
    ensures ApplyRegexes(env, "A", [("A", "B"), ("B", "C")]) == "C"
  {
    ApplyRegexesCons(env, "A", ("A", "B"), [("B", "C")]);
    ApplyRegexesCons(env, "B", ("B", "C"), []);
  }

  method RunRegexes(env: Env, s: string, regexes: seq<(string, string)>) returns (r: string)
    ensures r == ApplyRegexes(env, s, regexes)
  {
    r := s;
    for i := 0 to |regexes|
      invariant r == ApplyRegexes(env, s, regexes[..i])
    {
      assert regexes[..i + 1][..i] == regexes[..i];
      r := env.regexReplace(regexes[i].0, r, regexes[i].1);
    }
    assert regexes[..|regexes|] == regexes;
  }

  // ---------------------------------------------------------------------------
  // Server names

  /** The `for (orig, new) in &snames` loop of `server_names`, over the map's
      entries in iteration order: each mapping that matches the current name on a
      label boundary replaces the matched suffix. */
  function MapName(n: string, mappings: seq<(string, string)>): string
    decreases |mappings|
  {
    if mappings == [] then n
    else
      var cur := MapName(n, mappings[..|mappings| - 1]);
      var m := mappings[|mappings| - 1];
      match Relative(cur, m.0)
      case Some(prefix) => prefix + m.1
      case None => cur
  }

  /** Each mapping is applied to the result of the previous ones. */
  lemma {:induction false} MapNameAppend(n: string, a: seq<(string, string)>, b: seq<(string, string)>)
    ensures MapName(n, a + b) == MapName(MapName(n, a), b)
    decreases |b|
  {
    if b == [] {
      assert a + b == a;
    } else {
      assert (a + b)[..|a + b| - 1] == a + b[..|b| - 1];
      MapNameAppend(n, a, b[..|b| - 1]);
    }
  }

  /** One mapping: the prefix in front of the origin domain is kept and the origin is
      replaced by the destination; a name that does not end in the origin on a label
      boundary is left alone. */
  lemma MapNameOne(n: string, orig: string, dest: string, p: string)
    ensures MapName(n, [(orig, dest)]) == p + dest <== p + orig == n && LabelPrefix(p)
    ensures MapName(n, [(orig, dest)]) == n <== Relative(n, orig).None?
  {
    assert [(orig, dest)][..0] == [];
    RelativeExactly(n, orig, p);
  }

  /** A name no mapping matches, whatever the order, stays as it is. */
  lemma {:induction false} MapNameUnmatched(n: string, mappings: seq<(string, string)>)
    requires forall i :: 0 <= i < |mappings| ==> Relative(n, mappings[i].0).None?
    ensures MapName(n, mappings) == n
    decreases |mappings|
  {
    if mappings != [] {
      var init := mappings[..|mappings| - 1];
      assert forall i :: 0 <= i < |init| ==> init[i] == mappings[i];
      MapNameUnmatched(n, init);
    }
  }

  lemma MapNameExamples()
    ensures MapName("www.example.com", [("example.com", "example.org")]) == "www.example.org"
    ensures MapName("notexample.com", [("example.com", "example.org")]) == "notexample.com"
  {
    RelativeExamples();
    assert "www." + "example.com" == "www.example.com";
    assert "www." + "example.org" == "www.example.org";
    MapNameOne("www.example.com", "example.com", "example.org", "www.");
    MapNameOne("notexample.com", "example.com", "example.org", "");
  }

  method MapNameLoop(n: string, mappings: seq<(string, string)>) returns (r: string)
    ensures r == MapName(n, mappings)
  {
    r := n;
    for i := 0 to |mappings|
      invariant r == MapName(n, mappings[..i])
    {
      assert mappings[..i + 1][..i] == mappings[..i];
      match Relative(r, mappings[i].0) {
        case Some(prefix) => r := prefix + mappings[i].1;
        case None =>
      }
    }
    assert mappings[..|mappings|] == mappings;
  }

  /** One pattern of a `server_name`: `Exact`, `Suffix` and `StarSuffix` names are
      mapped, `StarPrefix` and `Regex` never are. */
  function MapPattern(p: ServerNamePattern, mappings: seq<(string, string)>): ServerNamePattern
  {
    match p
    case Exact(n) => Exact(MapName(n, mappings))
    case Suffix(n) => Suffix(MapName(n, mappings))
    case StarSuffix(n) => StarSuffix(MapName(n, mappings))
    case StarPrefix(_) => p
    case Regex(_) => p
  }

  /** The kind of pattern never changes. */
  predicate SameKind(p: ServerNamePattern, q: ServerNamePattern) {
    && (p.Exact? <==> q.Exact?)
    && (p.Suffix? <==> q.Suffix?)
    && (p.StarSuffix? <==> q.StarSuffix?)
    && (p.StarPrefix? <==> q.StarPrefix?)
    && (p.Regex? <==> q.Regex?)
  }

  lemma MapPatternSpec(p: ServerNamePattern, mappings: seq<(string, string)>)
    ensures SameKind(p, MapPattern(p, mappings))
    ensures p.StarPrefix? || p.Regex? ==> MapPattern(p, mappings) == p
    ensures mappings == [] ==> MapPattern(p, mappings) == p
    ensures !p.StarPrefix? && !p.Regex? ==> MapPattern(p, mappings).name == MapName(p.name, mappings)
  {
  }

  function MapPatterns(names: seq<ServerNamePattern>, mappings: seq<(string, string)>): (r: seq<ServerNamePattern>)
    ensures |r| == |names|
  {
    seq(|names|, i requires 0 <= i < |names| => MapPattern(names[i], mappings))
  }

  /** The `for name in names` loop of `server_names`, editing each pattern in place. */
  method MapPatternsLoop(names: seq<ServerNamePattern>, mappings: seq<(string, string)>)
    returns (r: seq<ServerNamePattern>)
    ensures r == MapPatterns(names, mappings)
  {
    r := names;
    for i := 0 to |names|
      invariant |r| == |names|
      invariant forall j :: 0 <= j < i ==> r[j] == MapPattern(names[j], mappings)
      invariant r[i..] == names[i..]
    {
      assert r[i] == names[i];
      match names[i] {
        case Exact(n) => var m := MapNameLoop(n, mappings); r := r[i := Exact(m)];
        case Suffix(n) => var m := MapNameLoop(n, mappings); r := r[i := Suffix(m)];
        case StarSuffix(n) => var m := MapNameLoop(n, mappings); r := r[i := StarSuffix(m)];
        case StarPrefix(_) =>
        case Regex(_) =>
      }
      assert r[i + 1..] == names[i + 1..] by {
        assert r[i + 1..] == r[i..][1..];
      }
    }
  }

  // ---------------------------------------------------------------------------
  // Proxy-pass hosts

  /** The `for (orig, new) in &pnames` loop of `proxy_pass_mapping`. */
  function MapProxy(s: string, mappings: seq<(string, string)>): string
    decreases |mappings|
  {
    if mappings == [] then s
    else
      var m := mappings[|mappings| - 1];
      MapProxyHost(MapProxy(s, mappings[..|mappings| - 1]), m.0, m.1)
  }

  lemma {:induction false} MapProxyAppend(s: string, a: seq<(string, string)>, b: seq<(string, string)>)
    ensures MapProxy(s, a + b) == MapProxy(MapProxy(s, a), b)
    decreases |b|
  {
    if b == [] {
      assert a + b == a;
    } else {
      assert (a + b)[..|a + b| - 1] == a + b[..|b| - 1];
      MapProxyAppend(s, a, b[..|b| - 1]);
    }
  }

  /** Text without an `http://` or `https://` scheme is never changed. */
  lemma {:induction false} MapProxyNoScheme(s: string, mappings: seq<(string, string)>)
    requires Scheme(s).None?
    ensures MapProxy(s, mappings) == s
    decreases |mappings|
  {
    if mappings != [] {
      MapProxyNoScheme(s, mappings[..|mappings| - 1]);
    }
  }

  method MapProxyLoop(s: string, mappings: seq<(string, string)>) returns (r: string)
    ensures r == MapProxy(s, mappings)
  {
    r := s;
    for i := 0 to |mappings|
      invariant r == MapProxy(s, mappings[..i])
    {
      assert mappings[..i + 1][..i] == mappings[..i];
      match ProxySubst(r, mappings[i].0) {
        case Some((pre, suf)) => r := pre + mappings[i].1 + suf;
        case None =>
      }
    }
    assert mappings[..|mappings|] == mappings;
  }

  // ---------------------------------------------------------------------------
  // Rewrite hosts

  /** The schemes before which `rewrite_host_regexes` edits a host. */
  predicate HasRewriteScheme(s: string) {
    StartsWith(s, "http://") || StartsWith(s, "https://") || StartsWith(s, "$scheme://")
  }

  /** The scheme text up to and including `//` that the replacement starts with. */
  function RewriteScheme(s: string): (r: string)
    requires HasRewriteScheme(s)
    ensures StartsWith(s, r) && (r == "http://" || r == "https://" || r == "$scheme://")
  {
    if StartsWith(s, "http://") then "http://"
    else if StartsWith(s, "https://") then "https://"
    else "$scheme://"
  }

  /** In each accepted scheme the first `/` is the first of the two that end it. */
  lemma FirstSlashOfScheme(s: string)
    requires HasRewriteScheme(s)
    ensures Find(s, '/') == Some(|RewriteScheme(s)| - 2)
  {
    var sch := RewriteScheme(s);
    var k := |sch| - 2;
    assert s[..|sch|] == sch;
    assert s[k] == sch[k] == '/';
    assert s[..k] == sch[..k];
    assert '/' !in sch[..k];
  }

  lemma SchemeSplit(s: string)
    requires HasRewriteScheme(s)
    ensures s == RewriteScheme(s) + s[|RewriteScheme(s)|..]
  {
    var p := RewriteScheme(s);
    assert s[..|p|] == p;
  }

  lemma Regroup(a: string, b: string, c: string)
    ensures a + b + c == a + (b + c)
  {
  }

  /** The three parts `rewrite_host_regexes` cuts a replacement into: the text up to
      and including `//` (which ends at the first `/` plus two, by
      `FirstSlashOfScheme`), the host up to the next `/`, and the rest. */
  function RewriteParts(s: string): (r: Option<(string, string, string)>)
    ensures r.None? <==> !HasRewriteScheme(s)
    ensures r.Some? ==> r.value.0 == RewriteScheme(s)
    ensures r.Some? ==> r.value.0 + r.value.1 + r.value.2 == s
    ensures r.Some? ==> '/' !in r.value.1 && (r.value.2 == [] || r.value.2[0] == '/')
  {
    if !HasRewriteScheme(s) then None
    else
      var prefix := RewriteScheme(s);
      SchemeSplit(s);
      var cut := CutAtSlash(s[|prefix|..]);
      Regroup(prefix, cut.0, cut.1);
      Some((prefix, cut.0, cut.1))
  }

  lemma RewriteSchemeOf(s: string, scheme: string)
    requires scheme == "http://" || scheme == "https://" || scheme == "$scheme://"
    requires StartsWith(s, scheme)
    ensures HasRewriteScheme(s) && RewriteScheme(s) == scheme
  {
    if scheme == "https://" {
      assert s[4] == 's';
      assert !StartsWith(s, "http://") by { assert "http://"[4] == ':'; }
    } else if scheme == "$scheme://" {
      assert s[0] == '$';
      assert !StartsWith(s, "http://") by { assert "http://"[0] == 'h'; }
      assert !StartsWith(s, "https://") by { assert "https://"[0] == 'h'; }
    }
  }

  /** The replacement text after the host edit, when it has a scheme. */
  function RewriteHost(env: Env, s: string, regexes: seq<(string, string)>): (r: Option<string>)
    ensures r.None? <==> !HasRewriteScheme(s)
  {
    match RewriteParts(s)
    case None => None
    case Some((prefix, host, suffix)) => Some(prefix + ApplyRegexes(env, host, regexes) + suffix)
  }

  /** Only the host is edited: the scheme up to `//` and everything from the next
      `/` on are kept verbatim. */
  lemma RewriteHostKeeps(env: Env, scheme: string, host: string, path: string, regexes: seq<(string, string)>)
    requires scheme == "http://" || scheme == "https://" || scheme == "$scheme://"
    requires '/' !in host && (path == [] || path[0] == '/')
    ensures RewriteHost(env, scheme + host + path, regexes)
         == Some(scheme + ApplyRegexes(env, host, regexes) + path)
  {
    var rest := host + path;
    Regroup(scheme, host, path);
    var s := scheme + rest;
    assert s[..|scheme|] == scheme;
    RewriteSchemeOf(s, scheme);
    assert s[|scheme|..] == rest;
    CutAtSlashUnique(host, path);
    if path != [] {
      assert Find(path, '/') == Some(0);
      assert CutAtSlash(path) == ("", path);
    } else {
      assert CutAtSlash(path) == ("", "");
    }
    assert host + "" == host;
    var parts := RewriteParts(s).value;
    assert parts == (scheme, host, path);
  }

  // ---------------------------------------------------------------------------
  // Replace by name

  /** The index of the first rule, in rule order, for a directive name. */
  function FirstRule(rules: seq<(string, Item)>, name: string): (r: Option<nat>)
    ensures r.Some? ==> r.value < |rules| && rules[r.value].0 == name
    ensures r.Some? ==> forall j :: 0 <= j < r.value ==> rules[j].0 != name
    ensures r.None? <==> forall j :: 0 <= j < |rules| ==> rules[j].0 != name
    decreases |rules|
  {
    if rules == [] then None
    else if rules[0].0 == name then Some(0)
    else match FirstRule(rules[1..], name)
         case None => None
         case Some(k) => Some(k + 1)
  }

  /** The `for (name, value) in &modify.replace_by_name` loop, stopping at the
      first match. */
  method FindRule(rules: seq<(string, Item)>, name: string) returns (r: Option<nat>)
    ensures r == FirstRule(rules, name)
  {
    r := None;
    var i := 0;
    while i < |rules|
      invariant 0 <= i <= |rules|
      invariant forall j :: 0 <= j < i ==> rules[j].0 != name
    {
      if rules[i].0 == name {
        r := Some(i);
        break;
      }
      i := i + 1;
    }
  }

  // ---------------------------------------------------------------------------
  // Variable substitution (`replace_vars` of nginx_config, on this model's values)

  function SubstPart(p: ValuePart, vars: map<string, string>): ValuePart
  {
    match p
    case Variable(n) => if n in vars then Literal(vars[n]) else p
    case Literal(_) => p
  }

  /** Every reference to a variable in the map becomes that literal; others stay. */
  function SubstValue(v: Value, vars: map<string, string>): (r: Value)
    ensures |r.parts| == |v.parts|
    ensures forall i :: 0 <= i < |v.parts| ==> r.parts[i] == SubstPart(v.parts[i], vars)
  {
    Value(seq(|v.parts|, i requires 0 <= i < |v.parts| => SubstPart(v.parts[i], vars)))
  }

  function SubstValues(vs: seq<Value>, vars: map<string, string>): (r: seq<Value>)
    ensures |r| == |vs|
  {
    seq(|vs|, i requires 0 <= i < |vs| => SubstValue(vs[i], vars))
  }

  function SubstCondition(c: IfCondition, vars: map<string, string>): IfCondition
  {
    match c
    case Eq(subject, lit) => Eq(SubstValue(subject, vars), lit)
    case Neq(subject, lit) => Neq(SubstValue(subject, vars), lit)
    case OtherCondition(ops) => OtherCondition(SubstValues(ops, vars))
  }

  /** The values of one item with variables substituted; its child list is left for
      the walk. */
  function SubstItem(item: Item, vars: map<string, string>): (r: Item)
    ensures Children(r) == Children(item) && DirectiveName(r) == DirectiveName(item)
  {
    match item
    case Listen(_) => item
    case ServerName(_) => item
    case ProxyPass(v) => ProxyPass(SubstValue(v, vars))
    case If(c, body) => If(SubstCondition(c, vars), body)
    case Rewrite(re, v, flag) => Rewrite(re, SubstValue(v, vars), flag)
    case Include(v) => Include(SubstValue(v, vars))
    case Block(n, args, cs) => Block(n, SubstValues(args, vars), cs)
    case Simple(n, args) => Simple(n, SubstValues(args, vars))
  }

  lemma SubstValueEmpty(v: Value)
    ensures SubstValue(v, map[]) == v
  {
    assert SubstValue(v, map[]).parts == v.parts;
  }

  lemma SubstValuesEmpty(vs: seq<Value>)
    ensures SubstValues(vs, map[]) == vs
  {
    forall i | 0 <= i < |vs| ensures SubstValues(vs, map[])[i] == vs[i] {
      SubstValueEmpty(vs[i]);
    }
  }

  /** With no variables given, substitution changes nothing. */
  lemma SubstItemEmpty(item: Item)
    ensures SubstItem(item, map[]) == item
  {
    match item
    case ProxyPass(v) => SubstValueEmpty(v);
    case If(c, _) =>
      match c {
        case Eq(s, _) => SubstValueEmpty(s);
        case Neq(s, _) => SubstValueEmpty(s);
        case OtherCondition(ops) => SubstValuesEmpty(ops);
      }
    case Rewrite(_, v, _) => SubstValueEmpty(v);
    case Include(v) => SubstValueEmpty(v);
    case Block(_, args, _) => SubstValuesEmpty(args);
    case Simple(_, args) => SubstValuesEmpty(args);
    case Listen(_) =>
    case ServerName(_) =>
  }

  /** After substitution no reference to a mapped variable is left, and references
      to unmapped variables are kept. */
  lemma SubstValueResolves(v: Value, vars: map<string, string>, i: nat)
    requires i < |v.parts|
    ensures SubstValue(v, vars).parts[i].Variable? ==> SubstValue(v, vars).parts[i].name !in vars
    ensures v.parts[i].Variable? && v.parts[i].name !in vars ==> SubstValue(v, vars).parts[i] == v.parts[i]
    ensures v.parts[i].Variable? && v.parts[i].name in vars ==> SubstValue(v, vars).parts[i] == Literal(vars[v.parts[i].name])
    ensures v.parts[i].Literal? ==> SubstValue(v, vars).parts[i] == v.parts[i]
  {
  }

  /** A reference to a variable that no `--set-var` argument names is left as it
      is, and one that some argument names becomes that argument's value. */
  lemma SetVarResolves(v: Value, items: seq<string>, i: nat)
    requires i < |v.parts| && v.parts[i].Variable?
    ensures (forall j :: 0 <= j < |items| ==> SplitOnce(items[j], '=').0 != v.parts[i].name)
      ==> SubstValue(v, VarMap(items)).parts[i] == v.parts[i]
    ensures (exists j :: 0 <= j < |items| && SplitOnce(items[j], '=').0 == v.parts[i].name)
      ==> (v.parts[i].name in VarMap(items)
           && SubstValue(v, VarMap(items)).parts[i] == Literal(VarMap(items)[v.parts[i].name]))
  {
    VarMapKeys(items, v.parts[i].name);
    SubstValueResolves(v, VarMap(items), i);
  }
}
