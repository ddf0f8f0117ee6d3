/** What the walk does to a whole tree: which directives the closure sees, in which
    order, what each rule changes, and which errors end up in the accumulator. */
module WalkFacts {
  import opened Wrappers
  import opened Tree
  import opened Errors
  import opened Foreign
  import opened Hostnames
  import opened Rules
  import opened Listen
  import opened Visit

  /** A directive's item without its child list: what one call of the closure
      decides, as opposed to what the walk below it decides. */
  function Shallow(item: Item): Item
  {
    match Children(item)
    case None => item
    case Some(_) => WithChildren(item, [])
  }

  lemma ShallowWithChildren(item: Item, cs: seq<Directive>)
    requires Children(item).Some?
    ensures Shallow(WithChildren(item, cs)) == Shallow(item)
  {
  }

  /** Position and shallow item of each directive of a list. */
  function Heads(ds: seq<Directive>): seq<(Pos, Item)>
  {
    if ds == [] then []
    else Heads(ds[..|ds| - 1]) + [(ds[|ds| - 1].position, Shallow(ds[|ds| - 1].item))]
  }

  /** Position and shallow item of each directive as one step leaves it. */
  function StepHeads(v: Visitor, env: Env, ds: seq<Directive>): seq<(Pos, Item)>
  {
    if ds == [] then []
    else StepHeads(v, env, ds[..|ds| - 1]) + [(ds[|ds| - 1].position, Shallow(Step(v, env, ds[|ds| - 1].item).0))]
  }

  /** The errors the steps store, directive by directive, in list order. */
  function StepErrors(v: Visitor, env: Env, ds: seq<Directive>): seq<Error>
  {
    if ds == [] then []
    else StepErrors(v, env, ds[..|ds| - 1]) + ErrorList(Step(v, env, ds[|ds| - 1].item).1)
  }

  lemma {:induction false} HeadsAppend(a: seq<Directive>, b: seq<Directive>)
    ensures Heads(a + b) == Heads(a) + Heads(b)
    decreases |b|
  {
    if b == [] {
      assert a + b == a;
    } else {
      assert (a + b)[..|a + b| - 1] == a + b[..|b| - 1];
      HeadsAppend(a, b[..|b| - 1]);
    }
  }

  lemma {:induction false} StepHeadsAppend(v: Visitor, env: Env, a: seq<Directive>, b: seq<Directive>)
    ensures StepHeads(v, env, a + b) == StepHeads(v, env, a) + StepHeads(v, env, b)
    decreases |b|
  {
    if b == [] {
      assert a + b == a;
    } else {
      var b0, last := b[..|b| - 1], b[|b| - 1];
      var h := [(last.position, Shallow(Step(v, env, last.item).0))];
      assert (a + b)[..|a + b| - 1] == a + b0;
      assert (a + b)[|a + b| - 1] == last;
      StepHeadsAppend(v, env, a, b0);
      assert StepHeads(v, env, a + b) == StepHeads(v, env, a + b0) + h;
      assert StepHeads(v, env, b) == StepHeads(v, env, b0) + h;
    }
  }

  lemma {:induction false} StepErrorsAppend(v: Visitor, env: Env, a: seq<Directive>, b: seq<Directive>)
    ensures StepErrors(v, env, a + b) == StepErrors(v, env, a) + StepErrors(v, env, b)
    decreases |b|
  {
    if b == [] {
      assert a + b == a;
    } else {
      var b0, last := b[..|b| - 1], b[|b| - 1];
      var e := ErrorList(Step(v, env, last.item).1);
      assert (a + b)[..|a + b| - 1] == a + b0;
      assert (a + b)[|a + b| - 1] == last;
      StepErrorsAppend(v, env, a, b0);
      assert StepErrors(v, env, a + b) == StepErrors(v, env, a + b0) + e;
      assert StepErrors(v, env, b) == StepErrors(v, env, b0) + e;
    }
  }

  /** A directive whose step reports no error. */
  predicate StepClean(v: Visitor, env: Env, d: Directive) {
    Step(v, env, d.item).1.None?
  }

  /** No error is stored exactly when no step reports one. */
  lemma {:induction false} StepErrorsEmpty(v: Visitor, env: Env, ds: seq<Directive>)
    ensures StepErrors(v, env, ds) == [] <==> forall i :: 0 <= i < |ds| ==> StepClean(v, env, ds[i])
    decreases |ds|
  {
    if ds != [] {
      var n := |ds| - 1;
      var d0 := ds[..n];
      StepErrorsEmpty(v, env, d0);
      assert StepErrors(v, env, ds) == StepErrors(v, env, d0) + ErrorList(Step(v, env, ds[n].item).1);
      assert forall i :: 0 <= i < |d0| ==> d0[i] == ds[i];
    }
  }

  /** The walk maps the top-level list directive by directive: same length, and each
      entry is what visiting the original entry yields. */
  lemma {:induction false} WalkMap(v: Visitor, env: Env, dirs: seq<Directive>)
    requires Admissible(v)
    ensures |Walk(v, env, dirs).dirs| == |dirs|
    ensures forall i :: 0 <= i < |dirs| ==> Walk(v, env, dirs).dirs[i] == VisitOne(v, env, dirs[i]).dir
    decreases |dirs|
  {
    if dirs != [] {
      var n := |dirs| - 1;
      var d0 := dirs[..n];
      WalkMap(v, env, d0);
      WalkSnoc(v, env, dirs, n);
      TakeAll(dirs, n);
      var w, w0 := Walk(v, env, dirs).dirs, Walk(v, env, d0).dirs;
      assert w == w0 + [VisitOne(v, env, dirs[n]).dir];
      forall i | 0 <= i < |dirs| ensures w[i] == VisitOne(v, env, dirs[i]).dir {
        if i < n {
          assert w[i] == w0[i] && d0[i] == dirs[i];
        }
      }
    }
  }

  /** Visiting keeps the position, and the item's own fields are what the step made
      of them. */
  lemma VisitOneHead(v: Visitor, env: Env, d: Directive)
    requires Admissible(v)
    ensures VisitOne(v, env, d).dir.position == d.position
    ensures Shallow(VisitOne(v, env, d).dir.item) == Shallow(Step(v, env, d.item).0)
  {
    var item := Step(v, env, d.item).0;
    match Children(item)
    case None =>
    case Some(cs) => ShallowWithChildren(item, Walk(v, env, cs).dirs);
  }

  /** With a field-only visitor the walk sees every directive of the original tree
      exactly once, in document order with each parent before its children: the
      result's directives, listed the same way, are the original ones as their step
      left them, and the stored errors are the steps' errors in that order. */
  lemma {:induction false} WalkHeads(v: Visitor, env: Env, dirs: seq<Directive>)
    requires Admissible(v) && FieldOnly(v)
    ensures Heads(AllDirectives(Walk(v, env, dirs).dirs)) == StepHeads(v, env, AllDirectives(dirs))
    ensures Walk(v, env, dirs).errors == StepErrors(v, env, AllDirectives(dirs))
    decreases ListHeight(dirs), 1, |dirs|
  {
    if dirs != [] {
      var d0, last := dirs[..|dirs| - 1], dirs[|dirs| - 1];
      HeightOfElement(dirs, |dirs| - 1);
      WalkHeads(v, env, d0);
      VisitHeads(v, env, last);
      var a, b := Walk(v, env, d0), VisitOne(v, env, last);
      AllDirectivesAppend(a.dirs, [b.dir]);
      AllDirectivesSingle(b.dir);
      HeadsAppend(AllDirectives(a.dirs), Preorder(b.dir));
      StepHeadsAppend(v, env, AllDirectives(d0), Preorder(last));
      StepErrorsAppend(v, env, AllDirectives(d0), Preorder(last));
    }
  }

  lemma {:induction false} VisitHeads(v: Visitor, env: Env, d: Directive)
    requires Admissible(v) && FieldOnly(v)
    ensures Heads(Preorder(VisitOne(v, env, d).dir)) == StepHeads(v, env, Preorder(d))
    ensures VisitOne(v, env, d).errors == StepErrors(v, env, Preorder(d))
    decreases Height(d), 0
  {
    var s := Step(v, env, d.item);
    FieldOnlyStep(v, env, d.item);
    VisitOneUnfold(v, env, d);
    StepOfOne(v, env, d);
    var dir := VisitOne(v, env, d).dir;
    if Children(d.item).None? {
      assert Preorder(d) == [d];
      assert Preorder(dir) == [dir];
    } else {
      var cs := Children(d.item).value;
      var w := Walk(v, env, cs);
      WalkHeads(v, env, cs);
      ShallowWithChildren(s.0, w.dirs);
      assert Preorder(dir) == [dir] + AllDirectives(w.dirs);
      assert Preorder(d) == [d] + AllDirectives(cs);
      HeadsAppend([dir], AllDirectives(w.dirs));
      StepHeadsAppend(v, env, [d], AllDirectives(cs));
      StepErrorsAppend(v, env, [d], AllDirectives(cs));
    }
  }

  /** The step heads and errors of a one-directive list. */
  lemma StepOfOne(v: Visitor, env: Env, d: Directive)
    ensures StepErrors(v, env, [d]) == ErrorList(Step(v, env, d.item).1)
    ensures StepHeads(v, env, [d]) == [(d.position, Shallow(Step(v, env, d.item).0))]
  {
    assert [d][..0] == [];
  }

  /** An accumulator that starts empty is still empty after a field-only walk
      exactly when no directive of the original tree failed its step; otherwise
      it holds the error of the last failing one in document order. */
  lemma WalkError(v: Visitor, env: Env, dirs: seq<Directive>)
    requires Admissible(v) && FieldOnly(v)
    ensures var all := AllDirectives(dirs);
      LastError(Walk(v, env, dirs).errors, None).None? <==>
        forall i :: 0 <= i < |all| ==> Step(v, env, all[i].item).1.None?
    ensures var errs := StepErrors(v, env, AllDirectives(dirs));
      errs != [] ==> LastError(Walk(v, env, dirs).errors, None) == Some(errs[|errs| - 1])
  {
    WalkHeads(v, env, dirs);
    StepErrorsEmpty(v, env, AllDirectives(dirs));
  }

  /** A visitor whose step returns every item unchanged and stores no error. */
  ghost predicate ChangesNothing(v: Visitor, env: Env)
  {
    forall item :: Step(v, env, item) == (item, None)
  }

  /** A visitor that changes no item leaves the tree as it is and stores nothing. */
  lemma {:induction false} WalkIdentity(v: Visitor, env: Env, dirs: seq<Directive>)
    requires Admissible(v) && ChangesNothing(v, env)
    ensures Walk(v, env, dirs) == Walked(dirs, [])
    decreases ListHeight(dirs), 1, |dirs|
  {
    if dirs != [] {
      var n := |dirs| - 1;
      HeightOfElement(dirs, n);
      WalkIdentity(v, env, dirs[..n]);
      VisitIdentity(v, env, dirs[n]);
      WalkSnoc(v, env, dirs, n);
      TakeAll(dirs, n);
    }
  }

  /** Cutting off the last element and putting it back. */
  lemma TakeAll(dirs: seq<Directive>, n: nat)
    requires n + 1 == |dirs|
    ensures dirs[..n + 1] == dirs && dirs[..n] + [dirs[n]] == dirs
  {
  }

  lemma {:induction false} VisitIdentity(v: Visitor, env: Env, d: Directive)
    requires Admissible(v) && ChangesNothing(v, env)
    ensures VisitOne(v, env, d) == Visited(d, [])
    decreases Height(d), 0
  {
    assert Step(v, env, d.item) == (d.item, None);
    VisitOneUnfold(v, env, d);
    if Children(d.item).Some? {
      var cs := Children(d.item).value;
      WalkIdentity(v, env, cs);
      assert WithChildren(d.item, cs) == d.item;
    }
  }

  /** `replace_vars` with no variables changes nothing. */
  lemma NoVarsIdentity(env: Env, dirs: seq<Directive>)
    ensures Walk(SubstVars(map[]), env, dirs) == Walked(dirs, [])
  {
    forall item ensures Step(SubstVars(map[]), env, item) == (item, None) {
      SubstItemEmpty(item);
    }
    WalkIdentity(SubstVars(map[]), env, dirs);
  }

  // ---------------------------------------------------------------------------
  // What each closure changes in one item

  /** `server_names` edits only `server_name` items, keeps the number and kind of
      their patterns, maps `Exact`, `Suffix` and `StarSuffix` names and leaves
      `StarPrefix` and `Regex` patterns alone. */
  lemma ServerNamesStep(m: seq<(string, string)>, env: Env, item: Item)
    ensures Step(MapServerNames(m), env, item).1.None?
    ensures !item.ServerName? ==> Step(MapServerNames(m), env, item).0 == item
    ensures item.ServerName? ==> var r := Step(MapServerNames(m), env, item).0;
      && r.ServerName? && |r.names| == |item.names|
      && (forall i :: 0 <= i < |item.names| ==> SameKind(item.names[i], r.names[i]))
      && (forall i :: 0 <= i < |item.names| && (item.names[i].StarPrefix? || item.names[i].Regex?) ==>
            r.names[i] == item.names[i])
      && (forall i :: 0 <= i < |item.names| && !item.names[i].StarPrefix? && !item.names[i].Regex? ==>
            r.names[i].name == MapName(item.names[i].name, m))
  {
    if item.ServerName? {
      forall i | 0 <= i < |item.names| {
        MapPatternSpec(item.names[i], m);
      }
    }
  }

  /** `if_regexes` edits only the literal of `=` and `!=` conditions: the subject,
      the kind of condition and the body stay, and other items are untouched. */
  lemma IfRegexesStep(rx: seq<(string, string)>, env: Env, item: Item)
    ensures var r := Step(IfRegexes(rx), env, item);
      && r.1.None?
      && (!item.If? || item.condition.OtherCondition? ==> r.0 == item)
      && (item.If? ==> r.0.If? && r.0.body == item.body)
      && (item.If? && !item.condition.OtherCondition? ==>
            && (r.0.condition.Eq? <==> item.condition.Eq?)
            && r.0.condition.Neq? == item.condition.Neq?
            && r.0.condition.subject == item.condition.subject
            && r.0.condition.literal == ApplyRegexes(env, item.condition.literal, rx))
  {
  }

  /** The `proxy_pass` rules: only `proxy_pass` items are touched; the rewritten
      text is re-parsed, and a failed parse keeps the old value and stores the
      parse error. */
  lemma ProxyStep(v: Visitor, env: Env, item: Item)
    requires v.MapProxyHosts? || v.ProxyRegexes?
    ensures !item.ProxyPass? ==> Step(v, env, item) == (item, None)
    ensures item.ProxyPass? ==>
      var text := if v.MapProxyHosts? then MapProxy(env.renderValue(item.target), v.mappings)
                  else ApplyRegexes(env, env.renderValue(item.target), v.regexes);
      var r := Step(v, env, item);
      && (env.parseProxy(text).Ok? ==> r == (ProxyPass(env.parseProxy(text).value), None))
      && (env.parseProxy(text).Err? ==> r == (item, Some(ProxySyntax(env.parseProxy(text).error))))
  {
  }

  /** `rewrite_host_regexes` touches only `rewrite` items whose replacement starts
      with `http://`, `https://` or `$scheme://`. It keeps the regex and the flag,
      the text up to and including `//` and the text from the next `/` on, and runs
      the regexes over the host between them; a failed parse keeps the item and
      stores the error. */
  lemma RewriteStepSpec(rx: seq<(string, string)>, env: Env, item: Item)
    ensures !item.Rewrite? ==> Step(RewriteHostRegexes(rx), env, item) == (item, None)
    ensures item.Rewrite? && !HasRewriteScheme(env.renderValue(item.replacement)) ==>
      Step(RewriteHostRegexes(rx), env, item) == (item, None)
    ensures item.Rewrite? && HasRewriteScheme(env.renderValue(item.replacement)) ==>
      var s := env.renderValue(item.replacement);
      var (prefix, host, suffix) := RewriteParts(s).value;
      var text := prefix + ApplyRegexes(env, host, rx) + suffix;
      && prefix + host + suffix == s
      && prefix == RewriteScheme(s)
      && '/' !in host
      && (suffix == [] || suffix[0] == '/')
      && var r := Step(RewriteHostRegexes(rx), env, item);
      && (env.parseValue(text).Ok? ==> r == (Rewrite(item.regex, env.parseValue(text).value, item.flag), None))
      && (env.parseValue(text).Err? ==> r == (item, Some(ValueSyntax(env.parseValue(text).error))))
  {
  }

  /** Replace by name: the first rule whose name is the directive's takes its item;
      with no such rule nothing changes. */
  lemma ByNameStepSpec(rules: seq<(string, Item)>, env: Env, item: Item)
    ensures Step(ReplaceByName(rules), env, item).1.None?
    ensures (forall j :: 0 <= j < |rules| ==> rules[j].0 != DirectiveName(item)) ==>
      Step(ReplaceByName(rules), env, item).0 == item
    ensures forall k ::
      (0 <= k < |rules| && rules[k].0 == DirectiveName(item)
        && (forall j :: 0 <= j < k ==> rules[j].0 != DirectiveName(item)))
      ==> Step(ReplaceByName(rules), env, item).0 == rules[k].1
  {
    match FirstRule(rules, DirectiveName(item))
    case None =>
    case Some(f) =>
      forall k | 0 <= k < |rules| && rules[k].0 == DirectiveName(item)
        && (forall j :: 0 <= j < k ==> rules[j].0 != DirectiveName(item))
        ensures k == f
      {
        if k < f {
        } else if k > f {
        }
      }
  }

  /** On the tree, a replaced directive keeps its position and nothing beneath it
      is visited; one without a rule keeps its item's own fields. */
  lemma ByNameVisit(rules: seq<(string, Item)>, env: Env, d: Directive)
    requires Admissible(ReplaceByName(rules))
    ensures VisitOne(ReplaceByName(rules), env, d).dir.position == d.position
    ensures FirstRule(rules, DirectiveName(d.item)).Some? ==>
      VisitOne(ReplaceByName(rules), env, d) ==
        Visited(Directive(d.position, rules[FirstRule(rules, DirectiveName(d.item)).value].1), [])
    ensures FirstRule(rules, DirectiveName(d.item)).None? ==>
      Shallow(VisitOne(ReplaceByName(rules), env, d).dir.item) == Shallow(d.item)
  {
    var v := ReplaceByName(rules);
    VisitOneHead(v, env, d);
    VisitOneUnfold(v, env, d);
    match FirstRule(rules, DirectiveName(d.item)) {
      case None =>
      case Some(k) =>
        var r := rules[k].1;
        if Children(r).Some? {
          WalkUnnamed(rules, env, Children(r).value);
          assert WithChildren(r, Children(r).value) == r;
        }
    }
  }

  /** Inside a replacement no directive has a rule's name, so walking the copy's
      child list changes nothing, stores nothing, and ends. */
  lemma {:induction false} WalkUnnamed(rules: seq<(string, Item)>, env: Env, dirs: seq<Directive>)
    requires Admissible(ReplaceByName(rules)) && NoneNamed(rules, dirs)
    ensures Walk(ReplaceByName(rules), env, dirs) == Walked(dirs, [])
    decreases ListHeight(dirs), 1, |dirs|
  {
    if dirs != [] {
      var n := |dirs| - 1;
      assert AllDirectives(dirs) == AllDirectives(dirs[..n]) + Preorder(dirs[n]);
      HeightOfElement(dirs, n);
      WalkUnnamed(rules, env, dirs[..n]);
      VisitUnnamed(rules, env, dirs[n]);
      WalkSnoc(ReplaceByName(rules), env, dirs, n);
      TakeAll(dirs, n);
    }
  }

  lemma {:induction false} VisitUnnamed(rules: seq<(string, Item)>, env: Env, d: Directive)
    requires Admissible(ReplaceByName(rules))
    requires forall x :: x in Preorder(d) ==> Unnamed(rules, x)
    ensures VisitOne(ReplaceByName(rules), env, d) == Visited(d, [])
    decreases Height(d), 0
  {
    assert d in Preorder(d);
    assert Step(ReplaceByName(rules), env, d.item) == (d.item, None);
    VisitOneUnfold(ReplaceByName(rules), env, d);
    if Children(d.item).Some? {
      var cs := Children(d.item).value;
      assert Preorder(d) == [d] + AllDirectives(cs);
      WalkUnnamed(rules, env, cs);
      assert WithChildren(d.item, cs) == d.item;
    }
  }

  // ---------------------------------------------------------------------------
  // `listen` in every block

  /** The listen visitor keeps whether a directive is a `listen`, and leaves the
      `listen` directives themselves as they are. */
  lemma ListenVisit(lst: seq<ListenAddress>, env: Env, d: Directive)
    ensures IsListen(VisitOne(ReplaceChildListens(lst), env, d).dir) <==> IsListen(d)
    ensures IsListen(d) ==> VisitOne(ReplaceChildListens(lst), env, d).dir == d
  {
    VisitOneHead(ReplaceChildListens(lst), env, d);
  }

  /** Walking a list with the listen visitor keeps its length, which entries are
      `listen`s, and the `listen` entries themselves. */
  lemma ListenWalk(lst: seq<ListenAddress>, env: Env, s: seq<Directive>)
    ensures var w := Walk(ReplaceChildListens(lst), env, s).dirs;
      && |w| == |s|
      && (forall i :: 0 <= i < |s| ==> (IsListen(w[i]) <==> IsListen(s[i])))
      && (forall i :: 0 <= i < |s| && IsListen(s[i]) ==> w[i] == s[i])
  {
    var v := ReplaceChildListens(lst);
    WalkMap(v, env, s);
    forall i | 0 <= i < |s| {
      ListenVisit(lst, env, s[i]);
    }
  }

  /** The child list a block ends up with is the walk of the list `replace_listen`
      made of its original children. */
  lemma ListenChildList(lst: seq<ListenAddress>, env: Env, d: Directive)
    requires Children(d.item).Some?
    ensures Children(VisitOne(ReplaceChildListens(lst), env, d).dir.item)
         == Some(Walk(ReplaceChildListens(lst), env, ListenReplaced(Children(d.item).value, lst)).dirs)
  {
    var v := ReplaceChildListens(lst);
    var item := WithChildren(d.item, ListenReplaced(Children(d.item).value, lst));
    assert Step(v, env, d.item).0 == item;
  }

  /** In every block the walk reaches, a child list without `listen` keeps its
      length and gets none. */
  lemma ListenChildrenNone(lst: seq<ListenAddress>, env: Env, d: Directive)
    requires Children(d.item).Some? && NoListen(Children(d.item).value)
    ensures var out := Children(VisitOne(ReplaceChildListens(lst), env, d).dir.item).value;
      |out| == |Children(d.item).value| && NoListen(out)
  {
    ListenChildList(lst, env, d);
    ListenReplacedNoListen(Children(d.item).value, lst);
    ListenWalk(lst, env, Children(d.item).value);
  }

  /** Otherwise the child list ends up as `replace_listen` makes it: the supplied
      addresses stand in order at `pos..pos+|lst|`, where `pos` is the index of the
      first original `listen`, and no other child is a `listen`. */
  lemma ListenChildrenSome(lst: seq<ListenAddress>, env: Env, d: Directive, pos: nat)
    requires Children(d.item).Some? && FirstListen(Children(d.item).value) == Some(pos)
    ensures var cs := Children(d.item).value;
      var out := Children(VisitOne(ReplaceChildListens(lst), env, d).dir.item).value;
      && pos <= |NonListen(cs)|
      && |out| == |NonListen(cs)| + |lst|
      && (forall k :: 0 <= k < |lst| ==> out[pos + k] == ListenDirective(lst[k]))
      && (forall i :: 0 <= i < |out| ==> (IsListen(out[i]) <==> pos <= i < pos + |lst|))
  {
    var cs := Children(d.item).value;
    ListenChildList(lst, env, d);
    ListenWalk(lst, env, ListenReplaced(cs, lst));
    ListenReplacedPositions(cs, lst, pos);
  }
}
