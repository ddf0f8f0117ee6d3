/** `visit_mutable` of nginx_config and the closures the rewrite rules hand to it.
    The walk calls the closure on each directive of a list in order and, after the
    call, walks the child list the directive then has. The closures are written out
    as the constructors of `Visitor`, and `Step` is what one call does to one item. */
module Visit {
  import opened Wrappers
  import opened Tree
  import opened Errors
  import opened Foreign
  import opened Rules
  import opened Listen

  /** The closure of each place `visit_mutable` is called from. */
  datatype Visitor =
      /** `replace_vars` with the `set_var` map. */
    | SubstVars(vars: map<string, string>)
      /** `replace_listen` on the child list of every block. */
    | ReplaceChildListens(listens: seq<ListenAddress>)
      /** `server_names`, with its map's entries in iteration order. */
    | MapServerNames(mappings: seq<(string, string)>)
      /** `proxy_pass_mapping`, with its map's entries in iteration order. */
    | MapProxyHosts(mappings: seq<(string, string)>)
    | ProxyRegexes(regexes: seq<(string, string)>)
    | IfRegexes(regexes: seq<(string, string)>)
    | RewriteHostRegexes(regexes: seq<(string, string)>)
      /** The `replace_by_name` pairs, in argument order. */
    | ReplaceByName(rules: seq<(string, Item)>)

  /** A directive no rule of `replace_by_name` names. */
  predicate Unnamed(rules: seq<(string, Item)>, d: Directive) {
    FirstRule(rules, DirectiveName(d.item)).None?
  }

  /** No directive of the list, at any depth, has the name of a rule. */
  predicate NoneNamed(rules: seq<(string, Item)>, ds: seq<Directive>) {
    forall x :: x in AllDirectives(ds) ==> Unnamed(rules, x)
  }

  /** After putting a replacement in place the walk goes on into the copy's child
      list. That no directive strictly inside a replacement item has the name of a
      rule is a sufficient condition for the walk to end. Without it the source may
      loop forever (`location=location / { location /a {} }`) or may end, and the
      model leaves that case to the caller to exclude. */
  predicate Admissible(v: Visitor) {
    v.ReplaceByName? ==>
      forall j :: 0 <= j < |v.rules| ==>
        Children(v.rules[j].1).None? || NoneNamed(v.rules, Children(v.rules[j].1).value)
  }

  /** The visitors that only edit fields and keep every child list as it is. */
  predicate FieldOnly(v: Visitor) {
    !v.ReplaceChildListens? && !v.ReplaceByName?
  }

  /** The re-parse of a rewritten `proxy_pass` text: the new value, or the old one
      and the parse error. */
  function Reparsed(env: Env, item: Item, s: string): (Item, Option<Error>)
  {
    match env.parseProxy(s)
    case Ok(x) => (ProxyPass(x), None)
    case Err(e) => (item, Some(ProxySyntax(e)))
  }

  function IfStep(env: Env, item: Item, regexes: seq<(string, string)>): Item
  {
    match item
    case If(Eq(subject, lit), body) => If(Eq(subject, ApplyRegexes(env, lit, regexes)), body)
    case If(Neq(subject, lit), body) => If(Neq(subject, ApplyRegexes(env, lit, regexes)), body)
    case _ => item
  }

  function RewriteStep(env: Env, item: Item, regexes: seq<(string, string)>): (Item, Option<Error>)
  {
    match item
    case Rewrite(re, rep, flag) =>
      (match RewriteHost(env, env.renderValue(rep), regexes)
       case None => (item, None)
       case Some(s) =>
         match env.parseValue(s)
         case Ok(x) => (Rewrite(re, x, flag), None)
         case Err(e) => (item, Some(ValueSyntax(e))))
    case _ => (item, None)
  }

  function ByNameStep(item: Item, rules: seq<(string, Item)>): Item
  {
    match FirstRule(rules, DirectiveName(item))
    case None => item
    case Some(k) => rules[k].1
  }

  /** One call of the closure: the new item and the error it stores, if any. */
  function Step(v: Visitor, env: Env, item: Item): (Item, Option<Error>)
  {
    match v
    case SubstVars(vars) => (SubstItem(item, vars), None)
    case ReplaceChildListens(lst) =>
      (match Children(item)
       case None => (item, None)
       case Some(cs) => (WithChildren(item, ListenReplaced(cs, lst)), None))
    case MapServerNames(m) =>
      (if item.ServerName? then (ServerName(MapPatterns(item.names, m)), None) else (item, None))
    case MapProxyHosts(m) =>
      (if item.ProxyPass? then Reparsed(env, item, MapProxy(env.renderValue(item.target), m)) else (item, None))
    case ProxyRegexes(rx) =>
      (if item.ProxyPass? then Reparsed(env, item, ApplyRegexes(env, env.renderValue(item.target), rx)) else (item, None))
    case IfRegexes(rx) => (IfStep(env, item, rx), None)
    case RewriteHostRegexes(rx) => RewriteStep(env, item, rx)
    case ReplaceByName(rules) => (ByNameStep(item, rules), None)
  }

  /** A field-only visitor keeps the child list and the name of every item. */
  lemma FieldOnlyStep(v: Visitor, env: Env, item: Item)
    requires FieldOnly(v)
    ensures Children(Step(v, env, item).0) == Children(item)
    ensures DirectiveName(Step(v, env, item).0) == DirectiveName(item)
  {
  }

  /** A step of any visitor but `replace_by_name` never makes a directive deeper. */
  lemma StepHeight(v: Visitor, env: Env, d: Directive)
    requires !v.ReplaceByName?
    ensures Height(Directive(d.position, Step(v, env, d.item).0)) <= Height(d)
  {
    var d' := Directive(d.position, Step(v, env, d.item).0);
    if v.ReplaceChildListens? {
      match Children(d.item) {
        case None =>
        case Some(cs) => ListenReplacedHeight(cs, v.listens);
      }
    } else {
      FieldOnlyStep(v, env, d.item);
      assert Children(d'.item) == Children(d.item);
    }
  }

  /** The height a directive ends up with under `replace_by_name`: a named one takes
      the height of its replacement, any other one stands above its children. */
  function Reach(rules: seq<(string, Item)>, d: Directive): nat
    decreases d, 1
  {
    match FirstRule(rules, DirectiveName(d.item))
    case Some(k) => Height(Directive(d.position, rules[k].1))
    case None =>
      match Children(d.item)
      case None => 0
      case Some(cs) => 1 + ListReach(rules, cs)
  }

  function ListReach(rules: seq<(string, Item)>, s: seq<Directive>): nat
    decreases s, 0
  {
    if s == [] then 0
    else
      var a, b := ListReach(rules, s[..|s| - 1]), Reach(rules, s[|s| - 1]);
      if a < b then b else a
  }

  lemma {:induction false} ReachOfElement(rules: seq<(string, Item)>, s: seq<Directive>, i: nat)
    requires i < |s|
    ensures Reach(rules, s[i]) <= ListReach(rules, s)
    decreases |s|
  {
    if i < |s| - 1 {
      ReachOfElement(rules, s[..|s| - 1], i);
    }
  }

  /** Where no directive has a rule's name, nothing is replaced and the height stays. */
  lemma {:induction false} ListReachUnnamed(rules: seq<(string, Item)>, s: seq<Directive>)
    requires NoneNamed(rules, s)
    ensures ListReach(rules, s) == ListHeight(s)
    decreases ListHeight(s), 1, |s|
  {
    if s != [] {
      var n := |s| - 1;
      assert AllDirectives(s) == AllDirectives(s[..n]) + Preorder(s[n]);
      HeightOfElement(s, n);
      ListReachUnnamed(rules, s[..n]);
      ReachUnnamed(rules, s[n]);
    }
  }

  lemma {:induction false} ReachUnnamed(rules: seq<(string, Item)>, d: Directive)
    requires forall x :: x in Preorder(d) ==> Unnamed(rules, x)
    ensures Reach(rules, d) == Height(d)
    decreases Height(d), 0
  {
    assert d in Preorder(d);
    match Children(d.item) {
      case None =>
      case Some(cs) =>
        assert Preorder(d) == [d] + AllDirectives(cs);
        ListReachUnnamed(rules, cs);
    }
  }

  /** The measure the walk goes down on: the height the visitor leaves a directive. */
  function Rank(v: Visitor, d: Directive): nat
  {
    if v.ReplaceByName? then Reach(v.rules, d) else Height(d)
  }

  function ListRank(v: Visitor, s: seq<Directive>): nat
  {
    if v.ReplaceByName? then ListReach(v.rules, s) else ListHeight(s)
  }

  lemma RankOfElement(v: Visitor, s: seq<Directive>, i: nat)
    requires i < |s|
    ensures Rank(v, s[i]) <= ListRank(v, s)
  {
    if v.ReplaceByName? {
      ReachOfElement(v.rules, s, i);
    } else {
      HeightOfElement(s, i);
    }
  }

  /** The child list a step leaves is lower than the directive was, which is what
      lets the walk end. */
  lemma StepRank(v: Visitor, env: Env, d: Directive)
    requires Admissible(v)
    ensures Children(Step(v, env, d.item).0).Some? ==>
      ListRank(v, Children(Step(v, env, d.item).0).value) < Rank(v, d)
  {
    if v.ReplaceByName? {
      match FirstRule(v.rules, DirectiveName(d.item)) {
        case None =>
        case Some(k) =>
          var r := v.rules[k].1;
          if Children(r).Some? {
            ListReachUnnamed(v.rules, Children(r).value);
          }
      }
    } else {
      StepHeight(v, env, d);
    }
  }

  function ErrorList(e: Option<Error>): seq<Error> {
    if e.Some? then [e.value] else []
  }

  /** A walked list and the errors its steps stored, in visiting order. */
  datatype Walked = Walked(dirs: seq<Directive>, errors: seq<Error>)
  datatype Visited = Visited(dir: Directive, errors: seq<Error>)

  /** `visit_mutable` on a list. */
  function Walk(v: Visitor, env: Env, dirs: seq<Directive>): Walked
    requires Admissible(v)
    decreases ListRank(v, dirs), 1, |dirs|
  {
    if dirs == [] then Walked([], [])
    else
      RankOfElement(v, dirs, |dirs| - 1);
      var a := Walk(v, env, dirs[..|dirs| - 1]);
      var b := VisitOne(v, env, dirs[|dirs| - 1]);
      Walked(a.dirs + [b.dir], a.errors + b.errors)
  }

  /** One directive: the step first, then the walk of the child list it leaves. */
  function VisitOne(v: Visitor, env: Env, d: Directive): Visited
    requires Admissible(v)
    decreases Rank(v, d), 0
  {
    var (item, e) := Step(v, env, d.item);
    StepRank(v, env, d);
    match Children(item)
    case None => Visited(Directive(d.position, item), ErrorList(e))
    case Some(cs) =>
      var w := Walk(v, env, cs);
      Visited(Directive(d.position, WithChildren(item, w.dirs)), ErrorList(e) + w.errors)
  }

  /** One visit, unfolded: the step, then the walk of the child list it leaves. */
  lemma VisitOneUnfold(v: Visitor, env: Env, d: Directive)
    requires Admissible(v)
    ensures Children(Step(v, env, d.item).0).None? ==>
      VisitOne(v, env, d) == Visited(Directive(d.position, Step(v, env, d.item).0), ErrorList(Step(v, env, d.item).1))
    ensures Children(Step(v, env, d.item).0).Some? ==>
      var cs := Children(Step(v, env, d.item).0).value;
      VisitOne(v, env, d) ==
        Visited(Directive(d.position, WithChildren(Step(v, env, d.item).0, Walk(v, env, cs).dirs)),
                ErrorList(Step(v, env, d.item).1) + Walk(v, env, cs).errors)
  {
  }

  /** The walk of a list prefix one directive longer. */
  lemma WalkSnoc(v: Visitor, env: Env, dirs: seq<Directive>, i: nat)
    requires Admissible(v) && i < |dirs|
    ensures Walk(v, env, dirs[..i + 1]) ==
      Walked(Walk(v, env, dirs[..i]).dirs + [VisitOne(v, env, dirs[i]).dir],
             Walk(v, env, dirs[..i]).errors + VisitOne(v, env, dirs[i]).errors)
  {
    assert dirs[..i + 1][..i] == dirs[..i];
  }

  /** What the `err` accumulator holds after the given errors were stored in turn,
      starting from `err0`: each `err = Some(e)` overwrites the one before. */
  function LastError(errors: seq<Error>, err0: Option<Error>): (r: Option<Error>)
    ensures errors == [] ==> r == err0
    ensures errors != [] ==> r == Some(errors[|errors| - 1])
  {
    if errors == [] then err0 else LastError(errors[1..], Some(errors[0]))
  }

  lemma LastErrorAppend(a: seq<Error>, b: seq<Error>, err0: Option<Error>)
    ensures LastError(a + b, err0) == LastError(b, LastError(a, err0))
  {
    if b != [] {
      assert (a + b)[|a + b| - 1] == b[|b| - 1];
    }
  }

  /** An accumulator that starts empty ends empty exactly when no step stored an
      error; otherwise it holds the last one. */
  lemma LastErrorNone(errors: seq<Error>)
    ensures LastError(errors, None).None? <==> errors == []
  {
  }

  /** The closure body: the loops of each rule, run on one item. */
  method Apply(v: Visitor, env: Env, item: Item) returns (r: Item, e: Option<Error>)
    ensures (r, e) == Step(v, env, item)
  {
    r, e := item, None;
    match v {
      case SubstVars(vars) =>
        r := SubstItem(item, vars);
      case ReplaceChildListens(lst) =>
        if Children(item).Some? {
          var cs := ReplaceListen(Children(item).value, lst);
          r := WithChildren(item, cs);
        }
      case MapServerNames(m) =>
        if item.ServerName? {
          var names := MapPatternsLoop(item.names, m);
          r := ServerName(names);
        }
      case MapProxyHosts(m) =>
        if item.ProxyPass? {
          var s := MapProxyLoop(env.renderValue(item.target), m);
          r, e := Reparse(env, item, s);
        }
      case ProxyRegexes(rx) =>
        if item.ProxyPass? {
          var s := RunRegexes(env, env.renderValue(item.target), rx);
          r, e := Reparse(env, item, s);
        }
      case IfRegexes(rx) =>
        r := ApplyIf(env, item, rx);
      case RewriteHostRegexes(rx) =>
        r, e := ApplyRewrite(env, item, rx);
      case ReplaceByName(rules) =>
        var k := FindRule(rules, DirectiveName(item));
        if k.Some? {
          r := rules[k.value].1;
        }
    }
  }

  /** The `if_regexes` closure on one item. */
  method ApplyIf(env: Env, item: Item, rx: seq<(string, string)>) returns (r: Item)
    ensures r == IfStep(env, item, rx)
  {
    r := item;
    if item.If? && (item.condition.Eq? || item.condition.Neq?) {
      var s := RunRegexes(env, item.condition.literal, rx);
      var c := if item.condition.Eq? then Eq(item.condition.subject, s) else Neq(item.condition.subject, s);
      r := If(c, item.body);
    }
  }

  /** The `rewrite_host_regexes` closure on one item. */
  method ApplyRewrite(env: Env, item: Item, rx: seq<(string, string)>) returns (r: Item, e: Option<Error>)
    ensures (r, e) == RewriteStep(env, item, rx)
  {
    r, e := item, None;
    if item.Rewrite? {
      var s := env.renderValue(item.replacement);
      if HasRewriteScheme(s) {
        var parts := RewriteParts(s).value;
        var host := RunRegexes(env, parts.1, rx);
        match env.parseValue(parts.0 + host + parts.2) {
          case Ok(x) => r := Rewrite(item.regex, x, item.flag);
          case Err(err) => e := Some(ValueSyntax(err));
        }
      }
    }
  }

  method Reparse(env: Env, item: Item, s: string) returns (r: Item, e: Option<Error>)
    ensures (r, e) == Reparsed(env, item, s)
  {
    match env.parseProxy(s) {
      case Ok(x) => r, e := ProxyPass(x), None;
      case Err(err) => r, e := item, Some(ProxySyntax(err));
    }
  }

  /** `visit_mutable(dirs, closure)` with the closure's `err` accumulator threaded
      through: it returns the rewritten list and the accumulator's final value. */
  method VisitMutable(v: Visitor, env: Env, dirs: seq<Directive>, err0: Option<Error>)
    returns (r: seq<Directive>, err: Option<Error>)
    requires Admissible(v)
    ensures r == Walk(v, env, dirs).dirs
    ensures err == LastError(Walk(v, env, dirs).errors, err0)
    decreases ListRank(v, dirs), 1
  {
    r, err := [], err0;
    for i := 0 to |dirs|
      invariant r == Walk(v, env, dirs[..i]).dirs
      invariant err == LastError(Walk(v, env, dirs[..i]).errors, err0)
    {
      RankOfElement(v, dirs, i);
      var d, stepErr := VisitDirective(v, env, dirs[i], err);
      VisitMutableStep(v, env, dirs, i, err0, r, err, d.item, stepErr);
      r, err := r + [d], stepErr;
    }
    assert dirs[..|dirs|] == dirs;
  }

  /** The body of the walk for one directive: the closure, then the walk of the
      child list it leaves. */
  method VisitDirective(v: Visitor, env: Env, d: Directive, err0: Option<Error>)
    returns (r: Directive, err: Option<Error>)
    requires Admissible(v)
    ensures r == VisitOne(v, env, d).dir
    ensures err == LastError(VisitOne(v, env, d).errors, err0)
    decreases Rank(v, d), 0
  {
    VisitOneUnfold(v, env, d);
    StepRank(v, env, d);
    var item, e := Apply(v, env, d.item);
    var errs := ErrorList(e);
    err := LastError(errs, err0);
    if Children(item).Some? {
      var cs, cerr := VisitMutable(v, env, Children(item).value, err);
      LastErrorAppend(errs, Walk(v, env, Children(item).value).errors, err0);
      item := WithChildren(item, cs);
      err := cerr;
    }
    r := Directive(d.position, item);
  }

  /** One pass of the loop of `VisitMutable`: appending what visiting the next
      directive yields keeps both invariants. */
  lemma VisitMutableStep(v: Visitor, env: Env, dirs: seq<Directive>, i: nat, err0: Option<Error>,
                         r: seq<Directive>, err: Option<Error>, item: Item, stepErr: Option<Error>)
    requires Admissible(v) && i < |dirs|
    requires r == Walk(v, env, dirs[..i]).dirs && err == LastError(Walk(v, env, dirs[..i]).errors, err0)
    requires Directive(dirs[i].position, item) == VisitOne(v, env, dirs[i]).dir
    requires stepErr == LastError(VisitOne(v, env, dirs[i]).errors, err)
    ensures r + [Directive(dirs[i].position, item)] == Walk(v, env, dirs[..i + 1]).dirs
    ensures stepErr == LastError(Walk(v, env, dirs[..i + 1]).errors, err0)
  {
    WalkSnoc(v, env, dirs, i);
    LastErrorAppend(Walk(v, env, dirs[..i]).errors, VisitOne(v, env, dirs[i]).errors, err0);
  }
}
