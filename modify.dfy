/** The `modify` command of src/bin/nginx_config_mod/modify.rs: the argument parser
    of `--replace-by-name`, the five rewrite rules as operations on a `Config`, and
    `run`, which loads the file and applies every stage in a fixed order. */
module Modify {
  import opened Wrappers
  import opened Text
  import opened Tree
  import opened Errors
  import opened Foreign
  import opened Rules
  import opened Listen
  import opened Visit
  import opened WalkFacts
  import opened Includes
  import opened ProxyCheck
  import opened ConfigFile

  /** The options of `modify`; `--listen` and `--replace-by-name` arrive already
      parsed, as the option parser hands them over. */
  datatype Options = Options(
    file: string,
    setVar: seq<string>,
    serverNameMapping: seq<string>,
    proxyPassMapping: seq<string>,
    proxyPassRegexes: seq<string>,
    ifRegexes: seq<string>,
    rewriteHostRegexes: seq<string>,
    checkProxyPassHostnames: bool,
    proxyPassExclude: seq<string>,
    expandLocalIncludes: bool,
    allowIncludes: seq<string>,
    listen: seq<ListenAddress>,
    replaceByName: seq<(string, Item)>)

  // ---------------------------------------------------------------------------
  // `--replace-by-name DIR=VALUE`

  /** `parse_replacement`: the name before the first `=` must not be empty, and the
      text after it, with a `;` appended, must parse to exactly one directive. */
  function ParseReplacement(env: Env, s: string): (r: Result<(string, Item), Error>)
  {
    var (name, rest) := SplitOnce(s, '=');
    if name == "" then Err(EmptyDirectiveName)
    else
      match rest
      case None => Err(NoReplacement)
      case Some(x) =>
        match env.parseDirectives(x + ";")
        case Err(e) => Err(ReplacementSyntax(e))
        case Ok(ds) =>
          if |ds| == 0 then Err(NoReplacement)
          else if |ds| > 1 then Err(MultipleReplacements)
          else Ok((name, ds[0].item))
  }

  /** The replacement is accepted exactly when the argument is `name=text` with a
      non-empty `name` free of `=`, and `text;` parses to a single directive; the
      rule is that name and the directive's item. Each failure has its own error,
      checked in the order the source checks them. */
  lemma ParseReplacementSpec(env: Env, name: string, text: string)
    requires '=' !in name
    ensures var r := ParseReplacement(env, name + "=" + text);
      var parsed := env.parseDirectives(text + ";");
      && (name == "" ==> r == Err(EmptyDirectiveName))
      && (name != "" && parsed.Err? ==> r == Err(ReplacementSyntax(parsed.error)))
      && (name != "" && parsed.Ok? && |parsed.value| == 0 ==> r == Err(NoReplacement))
      && (name != "" && parsed.Ok? && |parsed.value| > 1 ==> r == Err(MultipleReplacements))
      && (r.Ok? <==> name != "" && parsed.Ok? && |parsed.value| == 1)
      && (r.Ok? ==> r.value == (name, parsed.value[0].item))
  {
    SplitOnceUnique(name + "=" + text, '=', name, text);
  }

  /** An argument without `=` names no replacement (unless its name is empty). */
  lemma ParseReplacementNoEquals(env: Env, s: string)
    requires '=' !in s
    ensures ParseReplacement(env, s) == (if s == "" then Err(EmptyDirectiveName) else Err(NoReplacement))
  {
  }

  // ---------------------------------------------------------------------------
  // The rules, as specifications on the parsed tree

  /** The tree after one `visit_mutable` of the top-level list. */
  function AfterWalk(v: Visitor, env: Env, ast: Ast): (r: Ast)
    requires Admissible(v)
    ensures EntryOf(r) == EntryOf(ast)
  {
    WithDirectives(ast, Walk(v, env, DirectivesOf(ast)).dirs)
  }

  /** The value the closure's `err` ends with: the last error any step stored. */
  function StoredError(v: Visitor, env: Env, ast: Ast): Option<Error>
    requires Admissible(v)
  {
    LastError(Walk(v, env, DirectivesOf(ast)).errors, None)
  }

  /** What a rule leaves behind: the tree, and what the rule returns. */
  datatype RuleOutcome = RuleOutcome(ast: Ast, result: Result<(), Error>)

  /** The walk of a rule that keeps an `err` accumulator and returns it at the end. */
  function Checked(v: Visitor, env: Env, ast: Ast): RuleOutcome
    requires Admissible(v)
  {
    RuleOutcome(AfterWalk(v, env, ast),
      match StoredError(v, env, ast) case None => Ok(()) case Some(e) => Err(e))
  }

  /** The map the `HashMap` of a mapping rule holds, when its arguments parse. */
  function MappingOf(items: seq<string>, kind: RuleKind): map<string, string>
  {
    match Pairs(items, kind) case Ok(ps) => Mapping(ps) case Err(_) => map[]
  }

  function ServerNamesRule(env: Env, ast: Ast, names: seq<string>, order: seq<(string, string)>): RuleOutcome
  {
    match Pairs(names, ServerNameRule)
    case Err(e) => RuleOutcome(ast, Err(e))
    case Ok(_) => RuleOutcome(AfterWalk(MapServerNames(order), env, ast), Ok(()))
  }

  function ProxyPassMappingRule(env: Env, ast: Ast, names: seq<string>, order: seq<(string, string)>): RuleOutcome
  {
    match Pairs(names, ProxyHostRule)
    case Err(e) => RuleOutcome(ast, Err(e))
    case Ok(_) => Checked(MapProxyHosts(order), env, ast)
  }

  function ProxyPassRegexesRule(env: Env, ast: Ast, items: seq<string>): RuleOutcome
  {
    match RegexPairs(env, items, ProxyRegexRule)
    case Err(e) => RuleOutcome(ast, Err(e))
    case Ok(rx) => Checked(ProxyRegexes(rx), env, ast)
  }

  function IfRegexesRule(env: Env, ast: Ast, items: seq<string>): RuleOutcome
  {
    match RegexPairs(env, items, IfRegexRule)
    case Err(e) => RuleOutcome(ast, Err(e))
    case Ok(rx) => RuleOutcome(AfterWalk(IfRegexes(rx), env, ast), Ok(()))
  }

  function RewriteHostRegexesRule(env: Env, ast: Ast, items: seq<string>): RuleOutcome
  {
    match RegexPairs(env, items, RewriteHostRule)
    case Err(e) => RuleOutcome(ast, Err(e))
    case Ok(rx) => Checked(RewriteHostRegexes(rx), env, ast)
  }

  /** A rule with an `err` accumulator walks the whole tree and then fails exactly
      when some step, at any depth, failed to re-parse; the error it returns is
      that of the last such step in visiting order, not the first. */
  lemma CheckedResult(v: Visitor, env: Env, ast: Ast)
    requires FieldOnly(v)
    ensures var all := AllDirectives(DirectivesOf(ast));
      Checked(v, env, ast).result.Ok? <==> forall i :: 0 <= i < |all| ==> Step(v, env, all[i].item).1.None?
    ensures var errs := StepErrors(v, env, AllDirectives(DirectivesOf(ast)));
      errs != [] ==> Checked(v, env, ast).result == Err(errs[|errs| - 1])
  {
    WalkError(v, env, DirectivesOf(ast));
  }

  /** A rule whose arguments do not parse returns that error and leaves the tree
      as it was; the two rules without an accumulator succeed whenever their
      arguments parse. */
  lemma RuleArgumentErrors(env: Env, ast: Ast, items: seq<string>, order: seq<(string, string)>)
    ensures Pairs(items, ServerNameRule).Err? ==>
      ServerNamesRule(env, ast, items, order) == RuleOutcome(ast, Err(MissingTarget(ServerNameRule)))
    ensures Pairs(items, ProxyHostRule).Err? ==>
      ProxyPassMappingRule(env, ast, items, order) == RuleOutcome(ast, Err(MissingTarget(ProxyHostRule)))
    ensures RegexPairs(env, items, ProxyRegexRule).Err? ==>
      ProxyPassRegexesRule(env, ast, items) == RuleOutcome(ast, Err(RegexPairs(env, items, ProxyRegexRule).error))
    ensures RegexPairs(env, items, IfRegexRule).Err? ==>
      IfRegexesRule(env, ast, items) == RuleOutcome(ast, Err(RegexPairs(env, items, IfRegexRule).error))
    ensures RegexPairs(env, items, RewriteHostRule).Err? ==>
      RewriteHostRegexesRule(env, ast, items) == RuleOutcome(ast, Err(RegexPairs(env, items, RewriteHostRule).error))
    ensures Pairs(items, ServerNameRule).Ok? ==> ServerNamesRule(env, ast, items, order).result == Ok(())
    ensures RegexPairs(env, items, IfRegexRule).Ok? ==> IfRegexesRule(env, ast, items).result == Ok(())
  {
  }

  // ---------------------------------------------------------------------------
  // The rules, as operations on a `Config`

  /** `server_names`. The map's iteration order is returned as a ghost. */
  method ServerNames(env: Env, cfg: Config, names: seq<string>)
    returns (r: Result<(), Error>, ghost order: seq<(string, string)>)
    modifies cfg
    ensures IsIterationOrder(order, MappingOf(names, ServerNameRule))
    ensures RuleOutcome(cfg.ast, r) == ServerNamesRule(env, old(cfg.ast), names, order)
    ensures cfg.filename == old(cfg.filename)
  {
    var pairs := ParsePairs(names, ServerNameRule);
    if pairs.Err? {
      return Err(pairs.error), [];
    }
    var o := IterationOrder(Mapping(pairs.value));
    order := o;
    var ds, _ := VisitMutable(MapServerNames(o), env, cfg.Directives(), None);
    cfg.SetDirectives(ds);
    r := Ok(());
  }

  /** `proxy_pass_mapping`. */
  method ProxyPassMapping(env: Env, cfg: Config, names: seq<string>)
    returns (r: Result<(), Error>, ghost order: seq<(string, string)>)
    modifies cfg
    ensures IsIterationOrder(order, MappingOf(names, ProxyHostRule))
    ensures RuleOutcome(cfg.ast, r) == ProxyPassMappingRule(env, old(cfg.ast), names, order)
    ensures cfg.filename == old(cfg.filename)
  {
    var pairs := ParsePairs(names, ProxyHostRule);
    if pairs.Err? {
      return Err(pairs.error), [];
    }
    var o := IterationOrder(Mapping(pairs.value));
    order := o;
    var ds, err := VisitMutable(MapProxyHosts(o), env, cfg.Directives(), None);
    cfg.SetDirectives(ds);
    r := if err.Some? then Err(err.value) else Ok(());
  }

  /** `proxy_pass_regexes`. */
  method ProxyPassRegexes(env: Env, cfg: Config, items: seq<string>) returns (r: Result<(), Error>)
    modifies cfg
    ensures RuleOutcome(cfg.ast, r) == ProxyPassRegexesRule(env, old(cfg.ast), items)
    ensures cfg.filename == old(cfg.filename)
  {
    var regexes := ParseRegexPairs(env, items, ProxyRegexRule);
    if regexes.Err? {
      return Err(regexes.error);
    }
    var ds, err := VisitMutable(ProxyRegexes(regexes.value), env, cfg.Directives(), None);
    cfg.SetDirectives(ds);
    r := if err.Some? then Err(err.value) else Ok(());
  }

  /** `if_regexes`. */
  method IfRegexesOn(env: Env, cfg: Config, items: seq<string>) returns (r: Result<(), Error>)
    modifies cfg
    ensures RuleOutcome(cfg.ast, r) == IfRegexesRule(env, old(cfg.ast), items)
    ensures cfg.filename == old(cfg.filename)
  {
    var regexes := ParseRegexPairs(env, items, IfRegexRule);
    if regexes.Err? {
      return Err(regexes.error);
    }
    var ds, _ := VisitMutable(IfRegexes(regexes.value), env, cfg.Directives(), None);
    cfg.SetDirectives(ds);
    r := Ok(());
  }

  /** `rewrite_host_regexes`. */
  method RewriteHostRegexesOn(env: Env, cfg: Config, items: seq<string>) returns (r: Result<(), Error>)
    modifies cfg
    ensures RuleOutcome(cfg.ast, r) == RewriteHostRegexesRule(env, old(cfg.ast), items)
    ensures cfg.filename == old(cfg.filename)
  {
    var regexes := ParseRegexPairs(env, items, RewriteHostRule);
    if regexes.Err? {
      return Err(regexes.error);
    }
    var ds, err := VisitMutable(RewriteHostRegexes(regexes.value), env, cfg.Directives(), None);
    cfg.SetDirectives(ds);
    r := if err.Some? then Err(err.value) else Ok(());
  }

  // ---------------------------------------------------------------------------
  // The stages of `run`

  /** `--expand-local-includes`, relative to the configuration file. */
  function ExpandStage(env: Env, opts: Options, ast: Ast): Result<Ast, Error>
  {
    if !opts.expandLocalIncludes then Ok(ast)
    else
      match Expand(env, opts.file, DirectivesOf(ast))
      case Err(e) => Err(e)
      case Ok(ds) => Ok(WithDirectives(ast, ds))
  }

  /** `--listen`: the top-level list first, then the child list of every block. */
  function ListenStage(env: Env, lst: seq<ListenAddress>, ast: Ast): Ast
  {
    if |lst| == 0 then ast
    else AfterWalk(ReplaceChildListens(lst), env, WithDirectives(ast, ListenReplaced(DirectivesOf(ast), lst)))
  }

  /** A rule runs only when its option was given, and its error ends the run. */
  function RuleStage(given: bool, ast: Ast, o: RuleOutcome): Result<Ast, Error>
  {
    if !given then Ok(ast)
    else if o.result.Err? then Err(o.result.error)
    else Ok(o.ast)
  }

  /** The first exclusion pattern that does not compile, as `collect` reports it. */
  function FirstBadPattern(env: Env, patterns: seq<string>): (r: Option<Error>)
    ensures r.None? <==> forall i :: 0 <= i < |patterns| ==> env.regexError(patterns[i]).None?
    ensures r.Some? ==> exists i :: (0 <= i < |patterns| && env.regexError(patterns[i]).Some? &&
      r.value == InvalidRegex(patterns[i], env.regexError(patterns[i]).value) &&
      forall k :: 0 <= k < i ==> env.regexError(patterns[k]).None?)
    decreases |patterns|
  {
    if patterns == [] then None
    else if env.regexError(patterns[0]).Some? then Some(InvalidRegex(patterns[0], env.regexError(patterns[0]).value))
    else
      var rest := FirstBadPattern(env, patterns[1..]);
      assert forall i :: 1 <= i < |patterns| ==> patterns[i] == patterns[1..][i - 1];
      if rest.Some? then
        var j :| 0 <= j < |patterns[1..]| && env.regexError(patterns[1..][j]).Some? &&
          rest.value == InvalidRegex(patterns[1..][j], env.regexError(patterns[1..][j]).value) &&
          forall k :: 0 <= k < j ==> env.regexError(patterns[1..][k]).None?;
        assert forall k :: 0 <= k < j + 1 ==> env.regexError(patterns[k]).None? by {
          forall k | 0 <= k < j + 1 ensures env.regexError(patterns[k]).None? {
            if k > 0 { assert patterns[k] == patterns[1..][k - 1]; }
          }
        }
        assert patterns[j + 1] == patterns[1..][j];
        rest
      else rest
  }

  method CompilePatterns(env: Env, patterns: seq<string>) returns (r: Option<Error>)
    ensures r == FirstBadPattern(env, patterns)
  {
    var i := 0;
    while i < |patterns|
      invariant 0 <= i <= |patterns|
      invariant FirstBadPattern(env, patterns) == FirstBadPattern(env, patterns[i..])
    {
      assert patterns[i..][1..] == patterns[i + 1..];
      var e := env.regexError(patterns[i]);
      if e.Some? {
        return Some(InvalidRegex(patterns[i], e.value));
      }
      i := i + 1;
    }
    return None;
  }

  /** The predicate handed to the hostname check: a domain is looked up unless some
      exclusion pattern matches it. */
  function NotExcluded(env: Env, patterns: seq<string>): string -> bool
  {
    dom => forall j :: 0 <= j < |patterns| ==> !env.regexIsMatch(patterns[j], dom)
  }

  /** `--check-proxy-pass-hostnames`: the patterns are compiled, then every
      `proxy_pass` domain no pattern matches must resolve. */
  function HostCheckStage(env: Env, opts: Options, ast: Ast): Result<Ast, Error>
  {
    if !opts.checkProxyPassHostnames then Ok(ast)
    else if FirstBadPattern(env, opts.proxyPassExclude).Some? then Err(FirstBadPattern(env, opts.proxyPassExclude).value)
    else if CheckResult(env, NotExcluded(env, opts.proxyPassExclude), DirectivesOf(ast)).Err? then Err(HostnamesUnresolved)
    else Ok(ast)
  }

  /** The iteration orders of the two `HashMap`s of the run. */
  datatype Orders = Orders(serverNames: seq<(string, string)>, proxyHosts: seq<(string, string)>)

  predicate OrdersFit(opts: Options, orders: Orders) {
    && IsIterationOrder(orders.serverNames, MappingOf(opts.serverNameMapping, ServerNameRule))
    && IsIterationOrder(orders.proxyHosts, MappingOf(opts.proxyPassMapping, ProxyHostRule))
  }

  /** Loading and the stages before the rules: includes, variables, listens. */
  function Prepared(env: Env, opts: Options): Result<Ast, Error>
  {
    match LoadAst(env, Main, opts.file)
    case Err(e) => Err(Load(e))
    case Ok(a0) =>
      match ExpandStage(env, opts, a0)
      case Err(e) => Err(e)
      case Ok(a1) =>
        var a2 := AfterWalk(SubstVars(VarMap(opts.setVar)), env, a1);
        Ok(ListenStage(env, opts.listen, a2))
  }

  /** The two host mappings, server names first. */
  function Mapped(env: Env, opts: Options, orders: Orders, a: Ast): Result<Ast, Error>
  {
    var b1 :- RuleStage(|opts.serverNameMapping| > 0, a,
      ServerNamesRule(env, a, opts.serverNameMapping, orders.serverNames));
    RuleStage(|opts.proxyPassMapping| > 0, b1,
      ProxyPassMappingRule(env, b1, opts.proxyPassMapping, orders.proxyHosts))
  }

  /** The three regex rules: `proxy_pass`, then `if`, then `rewrite` hosts. */
  function Regexed(env: Env, opts: Options, a: Ast): Result<Ast, Error>
  {
    var b3 :- RuleStage(|opts.proxyPassRegexes| > 0, a, ProxyPassRegexesRule(env, a, opts.proxyPassRegexes));
    var b4 :- RuleStage(|opts.ifRegexes| > 0, b3, IfRegexesRule(env, b3, opts.ifRegexes));
    RuleStage(|opts.rewriteHostRegexes| > 0, b4, RewriteHostRegexesRule(env, b4, opts.rewriteHostRegexes))
  }

  /** The five rules, in the order `run` applies them. */
  function Rewritten(env: Env, opts: Options, orders: Orders, a: Ast): Result<Ast, Error>
  {
    var b :- Mapped(env, opts, orders, a);
    Regexed(env, opts, b)
  }

  /** The stages after the rules: the include allow-list, replacement by name and
      the hostname check, then the printed configuration. */
  function Finished(env: Env, opts: Options, a: Ast): Result<string, Error>
    requires Admissible(ReplaceByName(opts.replaceByName))
  {
    match IncludeCheck(env, opts.allowIncludes, DirectivesOf(a))
    case Err(e) => Err(e)
    case Ok(_) =>
      var c := if |opts.replaceByName| > 0 then AfterWalk(ReplaceByName(opts.replaceByName), env, a) else a;
      match HostCheckStage(env, opts, c)
      case Err(e) => Err(e)
      case Ok(_) => Ok(AstText(env, c))
  }

  /** `run`: the printed configuration, or the error that stopped it. */
  function Pipeline(env: Env, opts: Options, orders: Orders): Result<string, Error>
    requires Admissible(ReplaceByName(opts.replaceByName))
  {
    var a :- Prepared(env, opts);
    var b :- Rewritten(env, opts, orders, a);
    Finished(env, opts, b)
  }

  // ---------------------------------------------------------------------------
  // Properties of the whole run

  /** Options that ask for nothing: no rule, no expansion, no check. */
  function Plain(file: string, allowed: seq<string>): Options
  {
    Options(file, [], [], [], [], [], [], false, [], false, allowed, [], [])
  }

  /** With nothing asked for, the run loads the file, applies the include
      allow-list and prints the tree as it was parsed. */
  lemma PlainPipeline(env: Env, file: string, allowed: seq<string>, orders: Orders)
    ensures LoadAst(env, Main, file).Err? ==>
      Pipeline(env, Plain(file, allowed), orders) == Err(Load(LoadAst(env, Main, file).error))
    ensures LoadAst(env, Main, file).Ok? ==>
      var ast := LoadAst(env, Main, file).value;
      Pipeline(env, Plain(file, allowed), orders) ==
        (match IncludeCheck(env, allowed, DirectivesOf(ast))
         case Err(e) => Err(e)
         case Ok(_) => Ok(AstText(env, ast)))
  {
    var opts := Plain(file, allowed);
    if LoadAst(env, Main, file).Ok? {
      var ast := LoadAst(env, Main, file).value;
      assert VarMap([]) == map[];
      NoVarsIdentity(env, DirectivesOf(ast));
      DirectivesMutSame(ast, [], []);
      assert AfterWalk(SubstVars(VarMap(opts.setVar)), env, ast) == ast;
      assert Prepared(env, opts) == Ok(ast);
      assert Rewritten(env, opts, orders, ast) == Ok(ast);
    }
  }

  /** So with no include allowed either, the run prints the parsed file unchanged
      exactly when the file has no `include` at any depth; any include makes it
      fail. */
  lemma PlainPipelineIdentity(env: Env, file: string, orders: Orders)
    requires LoadAst(env, Main, file).Ok?
    ensures var ast := LoadAst(env, Main, file).value;
      var all := AllDirectives(DirectivesOf(ast));
      Pipeline(env, Plain(file, []), orders) == Ok(AstText(env, ast)) <==>
        forall i :: 0 <= i < |all| ==> !all[i].item.Include?
  {
    var ast := LoadAst(env, Main, file).value;
    PlainPipeline(env, file, [], orders);
    IncludeCheckOk(env, [], DirectivesOf(ast));
  }

  /** A server-name argument without `=` stops the run with that error once the
      file is loaded, whatever the later options say. */
  lemma MissingTargetStopsRun(env: Env, opts: Options, orders: Orders, i: nat)
    requires Admissible(ReplaceByName(opts.replaceByName))
    requires Prepared(env, opts).Ok?
    requires i < |opts.serverNameMapping| && '=' !in opts.serverNameMapping[i]
    ensures Pipeline(env, opts, orders) == Err(MissingTarget(ServerNameRule))
  {
    PairsSpec(opts.serverNameMapping, ServerNameRule);
  }

  /** The `--listen` stage replaces the top-level list by `replace_listen`'s
      result, walked with the child-list edit, which keeps every top-level entry's
      kind and every top-level `listen` as it is. */
  lemma ListenStageList(env: Env, lst: seq<ListenAddress>, ast: Ast)
    requires |lst| > 0
    ensures var top := ListenReplaced(DirectivesOf(ast), lst);
      var out := DirectivesOf(ListenStage(env, lst, ast));
      && |out| == |top|
      && (forall i :: 0 <= i < |top| ==> (IsListen(out[i]) <==> IsListen(top[i])))
      && (forall i :: 0 <= i < |top| && IsListen(top[i]) ==> out[i] == top[i])
  {
    var top := ListenReplaced(DirectivesOf(ast), lst);
    assert DirectivesOf(ListenStage(env, lst, ast)) == Walk(ReplaceChildListens(lst), env, top).dirs;
    ListenWalk(lst, env, top);
  }

  /** On a top-level list without `listen`, the stage keeps the length and adds none. */
  lemma ListenStageNone(env: Env, lst: seq<ListenAddress>, ast: Ast)
    requires |lst| > 0 && NoListen(DirectivesOf(ast))
    ensures var out := DirectivesOf(ListenStage(env, lst, ast));
      |out| == |DirectivesOf(ast)| && NoListen(out)
  {
    ListenStageList(env, lst, ast);
    ListenReplacedNoListen(DirectivesOf(ast), lst);
  }

  /** Otherwise the supplied addresses stand in order from the index of the first
      original `listen`, and no other top-level entry is a `listen`. */
  lemma ListenStageSome(env: Env, lst: seq<ListenAddress>, ast: Ast, pos: nat)
    requires |lst| > 0 && FirstListen(DirectivesOf(ast)) == Some(pos)
    ensures var ds := DirectivesOf(ast);
      var out := DirectivesOf(ListenStage(env, lst, ast));
      && pos <= |NonListen(ds)|
      && |out| == |NonListen(ds)| + |lst|
      && (forall k :: 0 <= k < |lst| ==> out[pos + k] == ListenDirective(lst[k]))
      && (forall i :: 0 <= i < |out| ==> (IsListen(out[i]) <==> pos <= i < pos + |lst|))
  {
    ListenStageList(env, lst, ast);
    ListenReplacedPositions(DirectivesOf(ast), lst, pos);
  }

  // ---------------------------------------------------------------------------
  // `run`

  /** The stages before the rules, on the loaded `Config`. */
  method Prepare(env: Env, opts: Options) returns (r: Result<Config, Error>)
    ensures r.Ok? <==> Prepared(env, opts).Ok?
    ensures r.Err? ==> r.error == Prepared(env, opts).error
    ensures r.Ok? ==> fresh(r.value) && r.value.ast == Prepared(env, opts).value
  {
    var loaded := PartialFile(env, Main, opts.file);
    if loaded.Err? {
      return Err(Load(loaded.error));
    }
    var cfg := loaded.value;
    ghost var a0 := cfg.ast;
    if opts.expandLocalIncludes {
      var ex := ExpandLocalIncludes(env, opts.file, cfg.Directives());
      if ex.Err? {
        return Err(ex.error);
      }
      cfg.SetDirectives(ex.value);
    }
    assert ExpandStage(env, opts, a0) == Ok(cfg.ast);
    var vars := ParseVars(opts.setVar);
    var ds, _ := VisitMutable(SubstVars(vars), env, cfg.Directives(), None);
    cfg.SetDirectives(ds);
    ghost var a2 := cfg.ast;
    if |opts.listen| > 0 {
      var top := ReplaceListen(cfg.Directives(), opts.listen);
      cfg.SetDirectives(top);
      var inner, _ := VisitMutable(ReplaceChildListens(opts.listen), env, cfg.Directives(), None);
      cfg.SetDirectives(inner);
    }
    assert cfg.ast == ListenStage(env, opts.listen, a2);
    return Ok(cfg);
  }

  /** The host mappings on the `Config`, each only when its option was given. */
  method MapRules(env: Env, opts: Options, cfg: Config) returns (r: Result<(), Error>, ghost orders: Orders)
    modifies cfg
    ensures OrdersFit(opts, orders)
    ensures r.Ok? <==> Mapped(env, opts, orders, old(cfg.ast)).Ok?
    ensures r.Err? ==> r.error == Mapped(env, opts, orders, old(cfg.ast)).error
    ensures r.Ok? ==> cfg.ast == Mapped(env, opts, orders, old(cfg.ast)).value
  {
    IterationOrderExists(MappingOf(opts.serverNameMapping, ServerNameRule));
    IterationOrderExists(MappingOf(opts.proxyPassMapping, ProxyHostRule));
    ghost var o1 :| IsIterationOrder(o1, MappingOf(opts.serverNameMapping, ServerNameRule));
    ghost var o2 :| IsIterationOrder(o2, MappingOf(opts.proxyPassMapping, ProxyHostRule));
    orders := Orders(o1, o2);
    ghost var a := cfg.ast;
    var res: Result<(), Error>;
    if |opts.serverNameMapping| > 0 {
      res, o1 := ServerNames(env, cfg, opts.serverNameMapping);
      orders := Orders(o1, o2);
      if res.Err? {
        return res, orders;
      }
    }
    ghost var b1 := cfg.ast;
    assert RuleStage(|opts.serverNameMapping| > 0, a, ServerNamesRule(env, a, opts.serverNameMapping, o1)) == Ok(b1);
    if |opts.proxyPassMapping| > 0 {
      res, o2 := ProxyPassMapping(env, cfg, opts.proxyPassMapping);
      orders := Orders(o1, o2);
      if res.Err? {
        return res, orders;
      }
    }
    return Ok(()), orders;
  }

  /** The regex rules on the `Config`, each only when its option was given. */
  method RegexRules(env: Env, opts: Options, cfg: Config) returns (r: Result<(), Error>)
    modifies cfg
    ensures r.Ok? <==> Regexed(env, opts, old(cfg.ast)).Ok?
    ensures r.Err? ==> r.error == Regexed(env, opts, old(cfg.ast)).error
    ensures r.Ok? ==> cfg.ast == Regexed(env, opts, old(cfg.ast)).value
  {
    ghost var b2 := cfg.ast;
    var res: Result<(), Error>;
    if |opts.proxyPassRegexes| > 0 {
      res := ProxyPassRegexes(env, cfg, opts.proxyPassRegexes);
      if res.Err? {
        return res;
      }
    }
    ghost var b3 := cfg.ast;
    assert RuleStage(|opts.proxyPassRegexes| > 0, b2, ProxyPassRegexesRule(env, b2, opts.proxyPassRegexes)) == Ok(b3);
    if |opts.ifRegexes| > 0 {
      res := IfRegexesOn(env, cfg, opts.ifRegexes);
      if res.Err? {
        return res;
      }
    }
    ghost var b4 := cfg.ast;
    assert RuleStage(|opts.ifRegexes| > 0, b3, IfRegexesRule(env, b3, opts.ifRegexes)) == Ok(b4);
    if |opts.rewriteHostRegexes| > 0 {
      res := RewriteHostRegexesOn(env, cfg, opts.rewriteHostRegexes);
      if res.Err? {
        return res;
      }
    }
    return Ok(());
  }

  /** The stages after the rules, then the printed configuration. */
  method Finish(env: Env, opts: Options, cfg: Config) returns (r: Result<string, Error>)
    requires Admissible(ReplaceByName(opts.replaceByName))
    modifies cfg
    ensures r == Finished(env, opts, old(cfg.ast))
  {
    var inc := CheckIncludes(env, opts.allowIncludes, cfg.Directives());
    if inc.Err? {
      return Err(inc.error);
    }
    if |opts.replaceByName| > 0 {
      var ds, _ := VisitMutable(ReplaceByName(opts.replaceByName), env, cfg.Directives(), None);
      cfg.SetDirectives(ds);
    }
    if opts.checkProxyPassHostnames {
      var bad := CompilePatterns(env, opts.proxyPassExclude);
      if bad.Some? {
        return Err(bad.value);
      }
      var result, _ := CheckSelectedHostnames(env, NotExcluded(env, opts.proxyPassExclude), cfg.Directives());
      if result.Err? {
        return Err(HostnamesUnresolved);
      }
    }
    var text := cfg.Render(env);
    r := Ok(text);
  }

  /** `run`: load, rewrite, check and print, stopping at the first error. */
  method Run(env: Env, opts: Options) returns (r: Result<string, Error>, ghost orders: Orders)
    requires Admissible(ReplaceByName(opts.replaceByName))
    ensures OrdersFit(opts, orders)
    ensures r == Pipeline(env, opts, orders)
    ensures Prepared(env, opts).Err? ==> r == Err(Prepared(env, opts).error)
    ensures r.Ok? ==> Prepared(env, opts).Ok?
  {
    IterationOrderExists(MappingOf(opts.serverNameMapping, ServerNameRule));
    IterationOrderExists(MappingOf(opts.proxyPassMapping, ProxyHostRule));
    ghost var o1 :| IsIterationOrder(o1, MappingOf(opts.serverNameMapping, ServerNameRule));
    ghost var o2 :| IsIterationOrder(o2, MappingOf(opts.proxyPassMapping, ProxyHostRule));
    orders := Orders(o1, o2);
    var prepared := Prepare(env, opts);
    if prepared.Err? {
      return Err(prepared.error), orders;
    }
    var cfg := prepared.value;
    var mapped;
    mapped, orders := MapRules(env, opts, cfg);
    if mapped.Err? {
      return Err(mapped.error), orders;
    }
    var regexed := RegexRules(env, opts, cfg);
    if regexed.Err? {
      return Err(regexed.error), orders;
    }
    r := Finish(env, opts, cfg);
  }
}
