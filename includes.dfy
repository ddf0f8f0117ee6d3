/** `include` handling: `expand_local_includes`, which splices the directives of a
    relative include in its place, and the allow-list scan of `run`, which compares
    include paths with the allowed prefixes component by component, as
    `Path::starts_with` does. Paths are Unix paths. */
module Includes {
  import opened Wrappers
  import opened Text
  import opened Tree
  import opened Errors
  import opened Foreign

  // ---------------------------------------------------------------------------
  // Paths

  /** `Path::is_absolute` on Unix: the path starts at the root. */
  predicate IsAbsolute(s: string) {
    |s| > 0 && s[0] == '/'
  }

  /** `std::path::Component` on Unix. */
  datatype Component = RootDir | CurDir | ParentDir | Normal(name: string)

  /** The components of the pieces between separators: empty pieces and `.` are
      dropped, `..` is the parent. */
  function NormalParts(pieces: seq<string>): seq<Component>
  {
    if pieces == [] then []
    else
      var p := pieces[0];
      (if p == "" || p == "." then [] else if p == ".." then [ParentDir] else [Normal(p)])
        + NormalParts(pieces[1..])
  }

  /** `Path::components`: a root or a leading `.` first, then the normal parts;
      repeated and trailing separators and inner `.` pieces do not count. */
  function Components(s: string): seq<Component>
  {
    var pieces := Split(s, '/');
    if IsAbsolute(s) then [RootDir] + NormalParts(pieces[1..])
    else if pieces[0] == "." then [CurDir] + NormalParts(pieces[1..])
    else NormalParts(pieces)
  }

  /** `Path::starts_with`: the base's components are a prefix of the path's. */
  predicate PathStartsWith(path: string, base: string) {
    var a, b := Components(path), Components(base);
    |b| <= |a| && a[..|b|] == b
  }

  /** The `.any(|p| path.starts_with(p))` test of `run`. */
  predicate Allowed(path: string, allowed: seq<string>) {
    exists j :: 0 <= j < |allowed| && PathStartsWith(path, allowed[j])
  }

  /** A path from the root through the given names: `/a/b/c`. */
  function Rooted(names: seq<string>): string
  {
    if names == [] then "" else "/" + names[0] + Rooted(names[1..])
  }

  /** A name that is one normal component on its own. */
  predicate CleanName(n: string) {
    n != "" && n != "." && n != ".." && '/' !in n
  }

  function NormalsOf(names: seq<string>): (r: seq<Component>)
    ensures |r| == |names|
    ensures forall i :: 0 <= i < |names| ==> r[i] == Normal(names[i])
  {
    seq(|names|, i requires 0 <= i < |names| => Normal(names[i]))
  }

  lemma {:induction false} SplitRooted(t: string, names: seq<string>)
    requires '/' !in t
    requires forall i :: 0 <= i < |names| ==> '/' !in names[i]
    ensures Split(t + Rooted(names), '/') == [t] + names
    decreases |names|
  {
    if names == [] {
      assert t + Rooted(names) == t;
    } else {
      var n, rest := names[0], names[1..];
      assert t + Rooted(names) == t + ['/'] + (n + Rooted(rest));
      SplitCons(t, '/', n + Rooted(rest));
      SplitRooted(n, rest);
      assert [n] + rest == names;
    }
  }

  lemma {:induction false} NormalPartsClean(names: seq<string>)
    requires forall i :: 0 <= i < |names| ==> CleanName(names[i])
    ensures NormalParts(names) == NormalsOf(names)
    decreases |names|
  {
    if names != [] {
      NormalPartsClean(names[1..]);
      assert NormalsOf(names) == [Normal(names[0])] + NormalsOf(names[1..]);
    }
  }

  /** The components of `/a/b/c` are the root and the names, in order. */
  lemma ComponentsRooted(names: seq<string>)
    requires |names| > 0 && forall i :: 0 <= i < |names| ==> CleanName(names[i])
    ensures Components(Rooted(names)) == [RootDir] + NormalsOf(names)
  {
    SplitRooted("", names);
    assert "" + Rooted(names) == Rooted(names);
    NormalPartsClean(names);
    assert ([""] + names)[1..] == names;
  }

  /** For such paths `Path::starts_with` compares whole names: `/a/b/c` starts with
      `/a/b` and not with `/a/bc`, whatever the text prefixes are. */
  lemma RootedStartsWith(names: seq<string>, base: seq<string>)
    requires |names| > 0 && forall i :: 0 <= i < |names| ==> CleanName(names[i])
    requires |base| > 0 && forall i :: 0 <= i < |base| ==> CleanName(base[i])
    ensures PathStartsWith(Rooted(names), Rooted(base)) <==> |base| <= |names| && names[..|base|] == base
  {
    ComponentsRooted(names);
    ComponentsRooted(base);
    var a, b := [RootDir] + NormalsOf(names), [RootDir] + NormalsOf(base);
    if |base| <= |names| && names[..|base|] == base {
      assert a[..|b|] == b by {
        forall i | 0 <= i < |b| ensures a[i] == b[i] {
          if i > 0 {
            assert names[..|base|][i - 1] == names[i - 1];
          }
        }
      }
    }
    if |b| <= |a| && a[..|b|] == b {
      assert names[..|base|] == base by {
        forall i | 0 <= i < |base| ensures names[i] == base[i] {
          assert a[i + 1] == b[i + 1];
        }
      }
    }
  }

  /** `Rooted` of a joined list is the joined text. */
  lemma {:induction false} RootedAppend(a: seq<string>, b: seq<string>)
    ensures Rooted(a + b) == Rooted(a) + Rooted(b)
    decreases |a|
  {
    if a == [] {
      assert a + b == b;
    } else {
      assert (a + b)[1..] == a[1..] + b;
      RootedAppend(a[1..], b);
    }
  }

  lemma RootedPair(x: string, y: string)
    ensures Rooted([x, y]) == "/" + x + "/" + y
  {
    assert [x, y][1..] == [y];
    assert [y][1..] == [];
    assert Rooted([y]) == "/" + y + "";
    assert "/" + y + "" == "/" + y;
  }

  lemma RootedNginx()
    ensures Rooted(["etc", "nginx"]) == "/etc/nginx"
  {
    RootedPair("etc", "nginx");
  }

  /** A string prefix is not a path prefix: `/etc/nginxfoo/a.conf` starts with the
      text `/etc/nginx` but not with the path `/etc/nginx`. */
  lemma TextPrefixIsNotPathPrefix()
    ensures StartsWith("/etc/nginxfoo/a.conf", "/etc/nginx")
    ensures !PathStartsWith("/etc/nginxfoo/a.conf", "/etc/nginx")
  {
    assert "/etc/nginxfoo/a.conf"[..|"/etc/nginx"|] == "/etc/nginx";
    var foo := ["etc", "nginxfoo", "a.conf"];
    RootedFoo();
    RootedNginx();
    RootedStartsWith(foo, ["etc", "nginx"]);
    assert foo[..2][1] != "nginx";
  }

  lemma RootedFoo()
    ensures Rooted(["etc", "nginxfoo", "a.conf"]) == "/etc/nginxfoo/a.conf"
  {
    RootedPair("nginxfoo", "a.conf");
    RootedAppend(["etc"], ["nginxfoo", "a.conf"]);
    assert ["etc"] + ["nginxfoo", "a.conf"] == ["etc", "nginxfoo", "a.conf"];
    assert ["etc"][1..] == [];
  }

  lemma RootedConf()
    ensures Rooted(["etc", "nginx", "conf.d", "a.conf"]) == "/etc/nginx/conf.d/a.conf"
  {
    RootedNginx();
    RootedPair("conf.d", "a.conf");
    RootedAppend(["etc", "nginx"], ["conf.d", "a.conf"]);
    assert ["etc", "nginx"] + ["conf.d", "a.conf"] == ["etc", "nginx", "conf.d", "a.conf"];
  }

  /** `/etc/nginx` covers `/etc/nginx/conf.d/a.conf`... */
  lemma AllowedExample()
    ensures Allowed("/etc/nginx/conf.d/a.conf", ["/etc/nginx"])
  {
    RootedNginx();
    RootedConf();
    var conf := ["etc", "nginx", "conf.d", "a.conf"];
    RootedStartsWith(conf, ["etc", "nginx"]);
    assert conf[..2] == ["etc", "nginx"];
    assert PathStartsWith("/etc/nginx/conf.d/a.conf", ["/etc/nginx"][0]);
  }

  /** ... and not `/etc/secret.conf`. */
  lemma RejectedExample()
    ensures !Allowed("/etc/secret.conf", ["/etc/nginx"])
  {
    RootedNginx();
    RootedSecret();
    var secret := ["etc", "secret.conf"];
    RootedStartsWith(secret, ["etc", "nginx"]);
    assert secret[..2][1] != "nginx";
  }

  lemma RootedSecret()
    ensures Rooted(["etc", "secret.conf"]) == "/etc/secret.conf"
  {
    RootedPair("etc", "secret.conf");
  }

  /** Every path starts with itself. */
  lemma PathStartsWithSelf(path: string)
    ensures PathStartsWith(path, path)
  {
    assert Components(path)[..|Components(path)|] == Components(path);
  }

  // ---------------------------------------------------------------------------
  // The allow-list scan

  /** An `include` whose path no allowed prefix covers. */
  predicate Violates(env: Env, allowed: seq<string>, d: Directive) {
    d.item.Include? && !Allowed(env.renderValue(d.item.path), allowed)
  }

  /** The index of the first `include`, in `all_directives` order, whose path no
      allowed prefix covers. */
  function FirstViolation(env: Env, allowed: seq<string>, all: seq<Directive>): (r: Option<nat>)
    ensures r.None? <==> forall i :: 0 <= i < |all| ==> !Violates(env, allowed, all[i])
    ensures r.Some? ==> r.value < |all| && Violates(env, allowed, all[r.value])
    ensures r.Some? ==> forall i :: 0 <= i < r.value ==> !Violates(env, allowed, all[i])
    decreases |all|
  {
    if all == [] then None
    else if Violates(env, allowed, all[0]) then Some(0)
    else
      match FirstViolation(env, allowed, all[1..])
      case None =>
        assert forall i :: 1 <= i < |all| ==> all[i] == all[1..][i - 1];
        None
      case Some(k) =>
        assert forall i :: 1 <= i < k + 1 ==> all[i] == all[1..][i - 1];
        Some(k + 1)
  }

  /** The first violation is the one with no violation before it. */
  lemma FirstViolationAt(env: Env, allowed: seq<string>, all: seq<Directive>, i: nat)
    requires i < |all| && Violates(env, allowed, all[i])
    requires forall j :: 0 <= j < i ==> !Violates(env, allowed, all[j])
    ensures FirstViolation(env, allowed, all) == Some(i)
  {
    var r := FirstViolation(env, allowed, all);
    assert r.Some?;
  }

  /** What the scan returns for a directive sequence in `all_directives` order. */
  function Verdict(env: Env, allowed: seq<string>, all: seq<Directive>): Result<(), Error>
  {
    match FirstViolation(env, allowed, all)
    case None => Ok(())
    case Some(k) => Err(InvalidInclude(env.renderValue(all[k].item.path), allowed))
  }

  /** The verdict once the first violation, or its absence, is known. */
  lemma VerdictAt(env: Env, allowed: seq<string>, all: seq<Directive>, i: nat)
    requires i <= |all| && forall j :: 0 <= j < i ==> !Violates(env, allowed, all[j])
    ensures i == |all| ==> Verdict(env, allowed, all) == Ok(())
    ensures i < |all| && Violates(env, allowed, all[i]) ==>
      Verdict(env, allowed, all) == Err(InvalidInclude(env.renderValue(all[i].item.path), allowed))
  {
    if i < |all| && Violates(env, allowed, all[i]) {
      FirstViolationAt(env, allowed, all, i);
    }
  }

  /** One more directive without a violation. */
  lemma NotViolating(env: Env, allowed: seq<string>, all: seq<Directive>, i: nat)
    requires i < |all| && forall j :: 0 <= j < i ==> !Violates(env, allowed, all[j])
    requires all[i].item.Include? ==> Allowed(env.renderValue(all[i].item.path), allowed)
    ensures forall j :: 0 <= j < i + 1 ==> !Violates(env, allowed, all[j])
  {
  }

  /** What the scan of `run` returns for a tree. */
  function IncludeCheck(env: Env, allowed: seq<string>, dirs: seq<Directive>): Result<(), Error>
  {
    Verdict(env, allowed, AllDirectives(dirs))
  }

  /** The `for dir in cfg.all_directives()` loop, stopping at the first include
      outside the allowed prefixes. */
  method CheckIncludes(env: Env, allowed: seq<string>, dirs: seq<Directive>) returns (r: Result<(), Error>)
    ensures r == IncludeCheck(env, allowed, dirs)
  {
    var all := AllDirectives(dirs);
    for i := 0 to |all|
      invariant forall j :: 0 <= j < i ==> !Violates(env, allowed, all[j])
    {
      var d := all[i];
      if d.item.Include? {
        var path := env.renderValue(d.item.path);
        if !Allowed(path, allowed) {
          VerdictAt(env, allowed, all, i);
          return Err(InvalidInclude(path, allowed));
        }
      }
      NotViolating(env, allowed, all, i);
    }
    VerdictAt(env, allowed, all, |all|);
    return Ok(());
  }

  /** The scan passes exactly when every include at any depth is covered by an
      allowed prefix; so with no prefix allowed, any include fails it. */
  lemma IncludeCheckOk(env: Env, allowed: seq<string>, dirs: seq<Directive>)
    ensures var all := AllDirectives(dirs);
      IncludeCheck(env, allowed, dirs).Ok? <==>
        forall i :: 0 <= i < |all| && all[i].item.Include? ==> Allowed(env.renderValue(all[i].item.path), allowed)
  {
  }

  lemma EmptyAllowListRejects(env: Env, dirs: seq<Directive>, i: nat)
    requires i < |AllDirectives(dirs)| && AllDirectives(dirs)[i].item.Include?
    ensures IncludeCheck(env, [], dirs).Err?
    ensures IncludeCheck(env, [], dirs).error.InvalidInclude?
  {
    IncludeCheckOk(env, [], dirs);
  }

  /** A tree without includes passes any allow-list, the empty one included. */
  lemma NoIncludePasses(env: Env, allowed: seq<string>, dirs: seq<Directive>)
    requires forall d :: d in AllDirectives(dirs) ==> !d.item.Include?
    ensures IncludeCheck(env, allowed, dirs) == Ok(())
  {
    var all := AllDirectives(dirs);
    assert forall i :: 0 <= i < |all| ==> all[i] in all;
  }

  // ---------------------------------------------------------------------------
  // Expansion of relative includes

  /** The directives of the file an include names, read and parsed. */
  function Fragment(env: Env, full: string): Result<seq<Directive>, Error>
  {
    match env.readFile(full)
    case Err(e) => Err(ReadInclude(full, e))
    case Ok(text) =>
      match env.parseDirectives(text)
      case Err(e) => Err(IncludeSyntax(e))
      case Ok(ds) => Ok(ds)
  }

  /** A relative include and the path it is read from. */
  predicate RelativeInclude(env: Env, d: Directive) {
    d.item.Include? && !IsAbsolute(env.renderValue(d.item.path))
  }

  /** `expand_local_includes` on a list: the directives in order, each replaced by
      what `ExpandOne` makes of it; the first failure, in order, is the result. */
  function Expand(env: Env, file: string, dirs: seq<Directive>): Result<seq<Directive>, Error>
    decreases ListHeight(dirs), 1, |dirs|
  {
    if dirs == [] then Ok([])
    else
      HeightOfElement(dirs, |dirs| - 1);
      match Expand(env, file, dirs[..|dirs| - 1])
      case Err(e) => Err(e)
      case Ok(a) =>
        match ExpandOne(env, file, dirs[|dirs| - 1])
        case Err(e) => Err(e)
        case Ok(b) => Ok(a + b)
  }

  /** One directive: a relative include becomes the directives of the file it
      names, which are not expanded again; an absolute include stays; any other
      directive stays with its child list expanded. */
  function ExpandOne(env: Env, file: string, d: Directive): Result<seq<Directive>, Error>
    decreases Height(d), 0
  {
    if RelativeInclude(env, d) then Fragment(env, env.joinIncludePath(file, env.renderValue(d.item.path)))
    else if d.item.Include? then Ok([d])
    else
      match Children(d.item)
      case None => Ok([d])
      case Some(cs) =>
        match Expand(env, file, cs)
        case Err(e) => Err(e)
        case Ok(cs2) => Ok([Directive(d.position, WithChildren(d.item, cs2))])
  }

  /** Once a prefix of the list has failed, the whole list fails with that error. */
  lemma {:induction false} ExpandErrPrefix(env: Env, file: string, dirs: seq<Directive>, n: nat, e: Error)
    requires n <= |dirs| && Expand(env, file, dirs[..n]) == Err(e)
    ensures Expand(env, file, dirs) == Err(e)
    decreases |dirs|
  {
    if n < |dirs| {
      assert dirs[..|dirs| - 1][..n] == dirs[..n];
      ExpandErrPrefix(env, file, dirs[..|dirs| - 1], n, e);
    } else {
      assert dirs[..n] == dirs;
    }
  }

  /** The recursive, in-place form: the source list is moved out and rebuilt with
      `push` and `extend`, child lists are expanded before their parent is pushed,
      and `?` returns the first error. */
  method ExpandLocalIncludes(env: Env, file: string, dest: seq<Directive>)
    returns (r: Result<seq<Directive>, Error>)
    ensures r == Expand(env, file, dest)
    decreases ListHeight(dest)
  {
    var source := dest;
    var out: seq<Directive> := [];
    for i := 0 to |source|
      invariant Expand(env, file, source[..i]) == Ok(out)
    {
      assert source[..i + 1][..i] == source[..i];
      var dir := source[i];
      HeightOfElement(source, i);
      var incPath: Option<string> := None;
      if dir.item.Include? {
        var s := env.renderValue(dir.item.path);
        if !IsAbsolute(s) {
          incPath := Some(env.joinIncludePath(file, s));
        }
      } else if Children(dir.item).Some? {
        var sub := ExpandLocalIncludes(env, file, Children(dir.item).value);
        if sub.Err? {
          ExpandErrPrefix(env, file, source, i + 1, sub.error);
          return Err(sub.error);
        }
        dir := Directive(dir.position, WithChildren(dir.item, sub.value));
      }
      if incPath.None? {
        out := out + [dir];
        continue;
      }
      var contents := env.readFile(incPath.value);
      if contents.Err? {
        ExpandErrPrefix(env, file, source, i + 1, ReadInclude(incPath.value, contents.error));
        return Err(ReadInclude(incPath.value, contents.error));
      }
      var incDirs := env.parseDirectives(contents.value);
      if incDirs.Err? {
        ExpandErrPrefix(env, file, source, i + 1, IncludeSyntax(incDirs.error));
        return Err(IncludeSyntax(incDirs.error));
      }
      out := out + incDirs.value;
    }
    assert source[..|source|] == source;
    return Ok(out);
  }

  /** Expanding two lists one after the other is expanding their concatenation:
      the output is the outputs spliced in order, and the first failure wins. */
  lemma {:induction false} ExpandAppend(env: Env, file: string, a: seq<Directive>, b: seq<Directive>)
    ensures Expand(env, file, a + b) ==
      (match Expand(env, file, a)
       case Err(e) => Err(e)
       case Ok(x) =>
         match Expand(env, file, b)
         case Err(e) => Err(e)
         case Ok(y) => Ok(x + y))
    decreases |b|
  {
    if b == [] {
      assert a + b == a;
      if Expand(env, file, a).Ok? {
        assert Expand(env, file, a).value + [] == Expand(env, file, a).value;
      }
    } else {
      var b0 := b[..|b| - 1];
      assert (a + b)[..|a + b| - 1] == a + b0;
      ExpandAppend(env, file, a, b0);
      if Expand(env, file, a).Ok? && Expand(env, file, b0).Ok? {
        var x, y := Expand(env, file, a).value, Expand(env, file, b0).value;
        match ExpandOne(env, file, b[|b| - 1]) {
          case Err(_) =>
          case Ok(z) => assert x + y + z == x + (y + z);
        }
      }
    }
  }

  lemma ExpandSingle(env: Env, file: string, d: Directive)
    ensures Expand(env, file, [d]) == ExpandOne(env, file, d)
  {
    assert [d][..0] == [];
    if ExpandOne(env, file, d).Ok? {
      assert [] + ExpandOne(env, file, d).value == ExpandOne(env, file, d).value;
    }
  }

  /** A relative include is replaced by exactly the directives of its file, even
      when those hold relative includes themselves. */
  lemma IncludeSpliced(env: Env, file: string, d: Directive, ds: seq<Directive>)
    requires RelativeInclude(env, d)
    requires Fragment(env, env.joinIncludePath(file, env.renderValue(d.item.path))) == Ok(ds)
    ensures Expand(env, file, [d]) == Ok(ds)
  {
    ExpandSingle(env, file, d);
  }

  /** A failed read names the file the include resolved to. */
  lemma IncludeUnreadable(env: Env, file: string, d: Directive)
    requires RelativeInclude(env, d)
    requires env.readFile(env.joinIncludePath(file, env.renderValue(d.item.path))).Err?
    ensures Expand(env, file, [d]) ==
      Err(ReadInclude(env.joinIncludePath(file, env.renderValue(d.item.path)),
                      env.readFile(env.joinIncludePath(file, env.renderValue(d.item.path))).error))
  {
    ExpandSingle(env, file, d);
  }

  /** A tree without relative includes comes out as it went in: absolute includes
      and every other directive stay, in their order and at every depth. */
  lemma {:induction false} ExpandNothing(env: Env, file: string, dirs: seq<Directive>)
    requires forall d :: d in AllDirectives(dirs) ==> !RelativeInclude(env, d)
    ensures Expand(env, file, dirs) == Ok(dirs)
    decreases ListHeight(dirs), 1, |dirs|
  {
    if dirs != [] {
      var d0, last := dirs[..|dirs| - 1], dirs[|dirs| - 1];
      HeightOfElement(dirs, |dirs| - 1);
      assert AllDirectives(dirs) == AllDirectives(d0) + Preorder(last);
      ExpandNothing(env, file, d0);
      ExpandOneNothing(env, file, last);
      assert d0 + [last] == dirs;
    }
  }

  lemma {:induction false} ExpandOneNothing(env: Env, file: string, d: Directive)
    requires forall x :: x in Preorder(d) ==> !RelativeInclude(env, x)
    ensures ExpandOne(env, file, d) == Ok([d])
    decreases Height(d), 0
  {
    assert Preorder(d)[0] == d;
    if !d.item.Include? {
      match Children(d.item)
      case None =>
      case Some(cs) =>
        assert Preorder(d) == [d] + AllDirectives(cs);
        ExpandNothing(env, file, cs);
        assert WithChildren(d.item, cs) == d.item;
    }
  }

  /** Every directive other than an include keeps its position, and one with a
      child list keeps its kind, name and arguments. */
  lemma ExpandOneKeeps(env: Env, file: string, d: Directive)
    requires !d.item.Include? && ExpandOne(env, file, d).Ok?
    ensures |ExpandOne(env, file, d).value| == 1
    ensures ExpandOne(env, file, d).value[0].position == d.position
    ensures Children(d.item).None? ==> ExpandOne(env, file, d).value[0] == d
    ensures Children(d.item).Some? ==>
      ExpandOne(env, file, d).value[0].item == WithChildren(d.item, Expand(env, file, Children(d.item).value).value)
  {
  }
}
