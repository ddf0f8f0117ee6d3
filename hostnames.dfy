/** Matching a configured origin domain against a host name on label boundaries:
    `relative` and `proxy_subst` of src/bin/nginx_config_mod/modify.rs. */
module Hostnames {
  import opened Wrappers
  import opened Text

  /** A prefix that can stand in front of a domain: empty, or ending in a dot. */
  predicate LabelPrefix(p: string) {
    p == [] || p[|p| - 1] == '.'
  }

  /** `relative(name, anchor)`: what precedes `anchor` in `name`, when `anchor` is
      a whole trailing run of labels. */
  function Relative(name: string, anchor: string): (r: Option<string>)
    ensures r.Some? ==> r.value + anchor == name && LabelPrefix(r.value)
  {
    if EndsWith(name, anchor) then
      if |anchor| == |name| then
        assert name == anchor;
        Some("")
      else if EndsWith(name[..|name| - |anchor|], ".") then
        assert name == name[..|name| - |anchor|] + anchor;
        Some(name[..|name| - |anchor|])
      else None
    else None
  }

  /** `relative` yields `p` exactly when `p` followed by the anchor is the name and
      `p` is empty or ends with a dot. */
  lemma RelativeExactly(name: string, anchor: string, p: string)
    ensures Relative(name, anchor) == Some(p) <==> p + anchor == name && LabelPrefix(p)
  {
    if p + anchor == name && LabelPrefix(p) {
      assert name[|name| - |anchor|..] == anchor;
      assert name[..|name| - |anchor|] == p;
      if p != [] {
        assert p[|p| - 1..] == ".";
      }
    }
  }

  lemma RelativeExamples()
    ensures Relative("www.example.com", "example.com") == Some("www.")
    ensures Relative("example.com", "example.com") == Some("")
    ensures Relative("notexample.com", "example.com") == None
  {
    RelativeExactly("www.example.com", "example.com", "www.");
    RelativeExactly("example.com", "example.com", "");
    assert "notexample.com"[..3] == "not";
  }

  /** The scheme `proxy_subst` accepts at the start of a proxy target. */
  function Scheme(name: string): (r: Option<string>)
    ensures r.Some? ==> (r.value == "http://" || r.value == "https://") && StartsWith(name, r.value)
    ensures r.None? <==> !StartsWith(name, "http://") && !StartsWith(name, "https://")
  {
    if StartsWith(name, "http://") then Some("http://")
    else if StartsWith(name, "https://") then Some("https://")
    else None
  }

  /** The first cut of `proxy_subst`: at the first `/`. */
  function CutAtSlash(cur: string): (r: (string, string))
    ensures r.0 + r.1 == cur
    ensures '/' !in r.0
    ensures r.1 == [] || r.1[0] == '/'
  {
    match Find(cur, '/')
    case None => (cur, "")
    case Some(k) => assert cur == cur[..k] + cur[k..]; (cur[..k], cur[k..])
  }

  /** The two cuts of `proxy_subst`: at the first `/`, then at the first `:` before
      it; the host is what remains in front. */
  function SplitHost(cur: string): (r: (string, string))
    ensures r.0 + r.1 == cur
    ensures '/' !in r.0 && ':' !in r.0
    ensures r.1 == [] || r.1[0] == '/' || r.1[0] == ':'
  {
    var a := CutAtSlash(cur);
    match Find(a.0, ':')
    case None => a
    case Some(k) =>
      CutBefore(a.0, a.1, k);
      (a.0[..k], a.0[k..] + a.1)
  }

  /** Cutting `x + y` at a position `k` of `x` that holds a `:`. */
  lemma CutBefore(x: string, y: string, k: nat)
    requires '/' !in x && k < |x| && x[k] == ':' && ':' !in x[..k]
    ensures x[..k] + (x[k..] + y) == x + y
    ensures '/' !in x[..k] && ':' !in x[..k]
    ensures (x[k..] + y)[0] == ':'
  {
    assert x == x[..k] + x[k..];
    assert forall i :: 0 <= i < k ==> x[..k][i] == x[i];
  }

  /** `proxy_subst(name, anchor)`: for `scheme host rest`, where the host ends with
      `anchor` on a label boundary, the text before the anchor and the text after
      the host. */
  function ProxySubst(name: string, anchor: string): (r: Option<(string, string)>)
    ensures r.Some? ==> Scheme(name).Some?
    ensures r.Some? ==> r.value.0 + anchor + r.value.1 == name
    ensures r.Some? ==> StartsWith(r.value.0, Scheme(name).value)
    ensures r.Some? ==> LabelPrefix(r.value.0[|Scheme(name).value|..])
    ensures r.Some? ==> r.value.1 == [] || r.value.1[0] == ':' || r.value.1[0] == '/'
  {
    match Scheme(name)
    case None => None
    case Some(scheme) =>
      var split := SplitHost(name[|scheme|..]);
      var host, rest := split.0, split.1;
      match Relative(host, anchor)
      case None => None
      case Some(p) =>
        Reassemble(name, scheme, host, rest, p, anchor);
        Some((scheme + p, rest))
  }

  lemma Reassemble(name: string, scheme: string, host: string, rest: string, p: string, anchor: string)
    requires StartsWith(name, scheme) && host + rest == name[|scheme|..] && p + anchor == host
    ensures (scheme + p) + anchor + rest == name
    ensures StartsWith(scheme + p, scheme) && (scheme + p)[|scheme|..] == p
  {
    assert name == scheme + name[|scheme|..];
    assert (scheme + p)[..|scheme|] == scheme;
  }

  /** `Find` on a concatenation whose first part lacks the character. */
  lemma FindAfter(a: string, b: string, c: char)
    requires c !in a
    ensures Find(a + b, c) == match Find(b, c) case None => None case Some(k) => Some(|a| + k)
  {
    var s := a + b;
    match Find(b, c)
    case None =>
      assert c !in s by {
        forall i | 0 <= i < |s| ensures s[i] != c {
          if i >= |a| { assert s[i] == b[i - |a|]; }
        }
      }
    case Some(k) =>
      assert s[|a| + k] == c;
      forall i | 0 <= i < |a| + k ensures s[i] != c {
        if i >= |a| { assert s[i] == b[..k][i - |a|]; }
      }
      assert c !in s[..|a| + k];
  }

  lemma CutAtSlashUnique(host: string, rest: string)
    requires '/' !in host
    ensures CutAtSlash(host + rest) == (host + CutAtSlash(rest).0, CutAtSlash(rest).1)
  {
    FindAfter(host, rest, '/');
    var cur := host + rest;
    match Find(rest, '/')
    case None =>
    case Some(k) =>
      assert cur[..|host| + k] == host + rest[..k];
      assert cur[|host| + k..] == rest[k..];
  }

  lemma SplitHostUnique(host: string, rest: string)
    requires '/' !in host && ':' !in host
    requires rest == [] || rest[0] == '/' || rest[0] == ':'
    ensures SplitHost(host + rest) == (host, rest)
  {
    CutAtSlashUnique(host, rest);
    var c := CutAtSlash(rest);
    assert c.0 + c.1 == rest;
    FindAfter(host, c.0, ':');
    if c.0 == [] {
      assert host + c.0 == host;
    } else {
      assert c.0[0] == rest[0] == ':';
      assert Find(c.0, ':') == Some(0);
      var a := host + c.0;
      assert a[..|host|] == host;
      assert a[|host|..] == c.0;
    }
  }

  /** The other direction: every `scheme host rest` whose host is a labelled
      extension of the anchor is split by `proxy_subst` at exactly those points. */
  lemma ProxySubstComplete(scheme: string, host: string, rest: string, anchor: string, p: string)
    requires scheme == "http://" || scheme == "https://"
    requires '/' !in host && ':' !in host
    requires rest == [] || rest[0] == '/' || rest[0] == ':'
    requires p + anchor == host && LabelPrefix(p)
    ensures ProxySubst(scheme + host + rest, anchor) == Some((scheme + p, rest))
  {
    var name := scheme + host + rest;
    assert name[..|scheme|] == scheme;
    if scheme == "https://" {
      assert name[..7] == "https:/";
    }
    assert Scheme(name) == Some(scheme);
    assert name[|scheme|..] == host + rest;
    SplitHostUnique(host, rest);
    RelativeExactly(host, anchor, p);
  }

  /** The loop body of `proxy_pass_mapping` for one `(orig, dest)` pair. */
  function MapProxyHost(s: string, orig: string, dest: string): (r: string)
  {
    match ProxySubst(s, orig)
    case None => s
    case Some((pre, suf)) => pre + dest + suf
  }

  /** Host mapping keeps the scheme and the `:port/path` part verbatim. */
  lemma MapProxyHostPreserves(scheme: string, host: string, rest: string, orig: string, dest: string, p: string)
    requires scheme == "http://" || scheme == "https://"
    requires '/' !in host && ':' !in host
    requires rest == [] || rest[0] == '/' || rest[0] == ':'
    requires p + orig == host && LabelPrefix(p)
    ensures MapProxyHost(scheme + host + rest, orig, dest) == scheme + p + dest + rest
  {
    ProxySubstComplete(scheme, host, rest, orig, p);
  }

  lemma MapProxyHostExample()
    ensures MapProxyHost("http://api.example.com:8080/v1", "example.com", "example.net")
         == "http://api.example.net:8080/v1"
  {
    var host, rest := "api.example.com", ":8080/v1";
    assert '/' !in host && ':' !in host;
    assert rest[0] == ':';
    assert "api." + "example.com" == host;
    assert LabelPrefix("api.");
    ExampleInput();
    ExampleOutput();
    MapProxyHostPreserves("http://", host, rest, "example.com", "example.net", "api.");
  }

  lemma ExampleInput()
    ensures "http://" + "api.example.com" + ":8080/v1" == "http://api.example.com:8080/v1"
  {
  }

  lemma ExampleOutput()
    ensures "http://" + "api." + "example.net" + ":8080/v1" == "http://api.example.net:8080/v1"
  {
  }
}
