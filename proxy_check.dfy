/** `check_selected_hostnames` of src/checks/proxy_pass.rs: every `proxy_pass` of the
    tree is parsed as a URL and its domain, unless the caller's predicate skips it,
    is looked up; all failures are collected. URL parsing and name resolution are
    the caller's functions, and the lookups made are returned so that "no lookup"
    is observable. */
module ProxyCheck {
  import opened Wrappers
  import opened Tree
  import opened Errors
  import opened Foreign

  /** `checks::proxy_pass::Error`. */
  datatype HostError =
    | InvalidUrl(text: string, cause: ParseError)
    | Resolve(domain: string, text: string, cause: IoError)

  /** What checking one directive yields: its errors and the lookups it made. */
  datatype Outcome = Outcome(errors: seq<HostError>, lookups: seq<(string, Port)>)

  /** The port looked up: the URL's own, or 80. */
  function LookupPort(url: Url): Port {
    if url.port.Some? then url.port.value else 80
  }

  /** One pass of the loop body. */
  function CheckOne(env: Env, doCheck: string -> bool, d: Directive): Outcome
  {
    if !d.item.ProxyPass? then Outcome([], [])
    else
      var text := env.renderValue(d.item.target);
      match env.parseUrl(text)
      case Err(e) => Outcome([InvalidUrl(text, e)], [])
      case Ok(url) =>
        match url.host
        case Some(Domain(name)) =>
          if !doCheck(name) then Outcome([], [])
          else
            (match env.resolve(name, LookupPort(url))
             case Ok(_) => Outcome([], [(name, LookupPort(url))])
             case Err(e) => Outcome([Resolve(name, text, e)], [(name, LookupPort(url))]))
        case Some(Ipv4(_)) => Outcome([], [])
        case Some(Ipv6(_)) => Outcome([], [])
        case None => Outcome([], [])
  }

  /** The whole scan over a directive sequence, in order. */
  function Scan(env: Env, doCheck: string -> bool, all: seq<Directive>): Outcome
  {
    if all == [] then Outcome([], [])
    else
      var a, b := Scan(env, doCheck, all[..|all| - 1]), CheckOne(env, doCheck, all[|all| - 1]);
      Outcome(a.errors + b.errors, a.lookups + b.lookups)
  }

  /** The function's result: `Ok(())` when nothing was collected. */
  function CheckResult(env: Env, doCheck: string -> bool, dirs: seq<Directive>): Result<(), seq<HostError>>
  {
    var errors := Scan(env, doCheck, AllDirectives(dirs)).errors;
    if errors == [] then Ok(()) else Err(errors)
  }

  /** The `for dir in cfg.all_directives()` loop with its `continue`s, pushing to
      `errors`. */
  method CheckSelectedHostnames(env: Env, doCheck: string -> bool, dirs: seq<Directive>)
    returns (r: Result<(), seq<HostError>>, lookups: seq<(string, Port)>)
    ensures r == CheckResult(env, doCheck, dirs)
    ensures lookups == Scan(env, doCheck, AllDirectives(dirs)).lookups
  {
    var all := AllDirectives(dirs);
    var errors: seq<HostError> := [];
    lookups := [];
    for i := 0 to |all|
      invariant Outcome(errors, lookups) == Scan(env, doCheck, all[..i])
    {
      ScanStep(env, doCheck, all, i);
      var dir := all[i];
      if !dir.item.ProxyPass? {
        continue;
      }
      var text := env.renderValue(dir.item.target);
      var url := env.parseUrl(text);
      if url.Err? {
        errors := errors + [InvalidUrl(text, url.error)];
        continue;
      }
      match url.value.host {
        case Some(Domain(name)) =>
          if !doCheck(name) {
            continue;
          }
          var port := LookupPort(url.value);
          var res := env.resolve(name, port);
          lookups := lookups + [(name, port)];
          if res.Err? {
            errors := errors + [Resolve(name, text, res.error)];
          }
        case Some(Ipv4(_)) =>
        case Some(Ipv6(_)) =>
        case None =>
      }
    }
    assert all[..|all|] == all;
    if errors == [] {
      return Ok(()), lookups;
    }
    return Err(errors), lookups;
  }

  /** The scan of one more directive. */
  lemma ScanStep(env: Env, doCheck: string -> bool, all: seq<Directive>, i: nat)
    requires i < |all|
    ensures var a, b := Scan(env, doCheck, all[..i]), CheckOne(env, doCheck, all[i]);
      Scan(env, doCheck, all[..i + 1]) == Outcome(a.errors + b.errors, a.lookups + b.lookups)
  {
    assert all[..i + 1][..i] == all[..i];
  }

  /** `check_hostnames`: the same scan with a predicate that checks every domain. */
  method CheckHostnames(env: Env, dirs: seq<Directive>)
    returns (r: Result<(), seq<HostError>>, lookups: seq<(string, Port)>)
    ensures r == CheckResult(env, _ => true, dirs)
    ensures lookups == Scan(env, _ => true, AllDirectives(dirs)).lookups
  {
    r, lookups := CheckSelectedHostnames(env, _ => true, dirs);
  }

  // ---------------------------------------------------------------------------
  // Properties

  /** Errors and lookups come in directive order: scanning two sequences is
      scanning the first, then the second. */
  lemma {:induction false} ScanAppend(env: Env, doCheck: string -> bool, a: seq<Directive>, b: seq<Directive>)
    ensures Scan(env, doCheck, a + b).errors == Scan(env, doCheck, a).errors + Scan(env, doCheck, b).errors
    ensures Scan(env, doCheck, a + b).lookups == Scan(env, doCheck, a).lookups + Scan(env, doCheck, b).lookups
    decreases |b|
  {
    if b == [] {
      assert a + b == a;
    } else {
      var b0, last := b[..|b| - 1], b[|b| - 1];
      var o := CheckOne(env, doCheck, last);
      assert (a + b)[..|a + b| - 1] == a + b0;
      assert (a + b)[|a + b| - 1] == last;
      ScanAppend(env, doCheck, a, b0);
      assert Scan(env, doCheck, a + b) == Outcome(Scan(env, doCheck, a + b0).errors + o.errors, Scan(env, doCheck, a + b0).lookups + o.lookups);
      assert Scan(env, doCheck, b) == Outcome(Scan(env, doCheck, b0).errors + o.errors, Scan(env, doCheck, b0).lookups + o.lookups);
    }
  }

  /** A directive that contributes no error. */
  predicate Clean(env: Env, doCheck: string -> bool, d: Directive) {
    CheckOne(env, doCheck, d).errors == []
  }

  /** The scan never stops early: the result is `Ok` exactly when no directive
      yields an error. */
  lemma {:induction false} ScanErrorsEmpty(env: Env, doCheck: string -> bool, all: seq<Directive>)
    ensures Scan(env, doCheck, all).errors == [] <==> forall i :: 0 <= i < |all| ==> Clean(env, doCheck, all[i])
    decreases |all|
  {
    if all != [] {
      var a0 := all[..|all| - 1];
      ScanErrorsEmpty(env, doCheck, a0);
      assert forall i :: 0 <= i < |a0| ==> a0[i] == all[i];
    }
  }

  lemma CheckResultOk(env: Env, doCheck: string -> bool, dirs: seq<Directive>)
    ensures CheckResult(env, doCheck, dirs).Ok? <==>
      forall i :: 0 <= i < |AllDirectives(dirs)| ==> Clean(env, doCheck, AllDirectives(dirs)[i])
    ensures CheckResult(env, doCheck, dirs).Err? ==>
      CheckResult(env, doCheck, dirs).error == Scan(env, doCheck, AllDirectives(dirs)).errors
  {
    var all := AllDirectives(dirs);
    ScanErrorsEmpty(env, doCheck, all);
    CheckResultOfScan(env, doCheck, dirs);
  }

  lemma CheckResultOfScan(env: Env, doCheck: string -> bool, dirs: seq<Directive>)
    ensures CheckResult(env, doCheck, dirs).Ok? <==> Scan(env, doCheck, AllDirectives(dirs)).errors == []
  {
  }

  /** What one directive contributes: nothing unless it is a `proxy_pass`; one
      `InvalidUrl` with its text when the URL does not parse; nothing for IP
      literals and host-less URLs; no error and no lookup for a domain the
      predicate skips; otherwise one lookup at the URL's port or 80, and one
      `Resolve` error exactly when it fails. */
  lemma CheckOneSpec(env: Env, doCheck: string -> bool, d: Directive)
    ensures !d.item.ProxyPass? ==> CheckOne(env, doCheck, d) == Outcome([], [])
    ensures d.item.ProxyPass? ==>
      var text := env.renderValue(d.item.target);
      var o := CheckOne(env, doCheck, d);
      && (env.parseUrl(text).Err? ==> o == Outcome([InvalidUrl(text, env.parseUrl(text).error)], []))
      && (env.parseUrl(text).Ok? ==>
            var url := env.parseUrl(text).value;
            && (url.host.None? || url.host.value.Ipv4? || url.host.value.Ipv6? ==> o == Outcome([], []))
            && (url.host.Some? && url.host.value.Domain? && !doCheck(url.host.value.name) ==> o == Outcome([], []))
            && (url.host.Some? && url.host.value.Domain? && doCheck(url.host.value.name) ==>
                  var name := url.host.value.name;
                  var port := if url.port.Some? then url.port.value else 80;
                  && o.lookups == [(name, port)]
                  && (env.resolve(name, port).Ok? ==> o.errors == [])
                  && (env.resolve(name, port).Err? ==> o.errors == [Resolve(name, text, env.resolve(name, port).error)])))
  {
  }

  /** The number of `proxy_pass` directives in a sequence. */
  function ProxyCount(all: seq<Directive>): nat
  {
    if all == [] then 0
    else ProxyCount(all[..|all| - 1]) + (if all[|all| - 1].item.ProxyPass? then 1 else 0)
  }

  /** At most one error per `proxy_pass`, and none from other directives. */
  lemma {:induction false} ErrorsAtMostProxies(env: Env, doCheck: string -> bool, all: seq<Directive>)
    ensures |Scan(env, doCheck, all).errors| <= ProxyCount(all)
    ensures |Scan(env, doCheck, all).lookups| <= ProxyCount(all)
    decreases |all|
  {
    if all != [] {
      ErrorsAtMostProxies(env, doCheck, all[..|all| - 1]);
    }
  }

  /** A predicate that skips every domain makes the scan do no lookup. */
  lemma {:induction false} SkipAllNoLookup(env: Env, all: seq<Directive>)
    ensures Scan(env, _ => false, all).lookups == []
    decreases |all|
  {
    if all != [] {
      SkipAllNoLookup(env, all[..|all| - 1]);
    }
  }
}
