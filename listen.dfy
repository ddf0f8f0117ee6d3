/** `replace_listen`: drop every `listen` of one directive list and insert the
    supplied addresses where the first one stood. */
module Listen {
  import opened Wrappers
  import opened Tree

  predicate IsListen(d: Directive) {
    d.item.Listen?
  }

  predicate NoListen(dirs: seq<Directive>) {
    forall i :: 0 <= i < |dirs| ==> !IsListen(dirs[i])
  }

  /** `dirs.iter().position(is_listen)`. */
  function FirstListen(dirs: seq<Directive>): (r: Option<nat>)
    ensures r.None? <==> NoListen(dirs)
    ensures r.Some? ==> r.value < |dirs| && IsListen(dirs[r.value])
    ensures r.Some? ==> forall j :: 0 <= j < r.value ==> !IsListen(dirs[j])
  {
    if dirs == [] then None
    else if IsListen(dirs[0]) then Some(0)
    else
      match FirstListen(dirs[1..])
      case None => None
      case Some(k) =>
        assert forall j :: 1 <= j < k + 1 ==> dirs[j] == dirs[1..][j - 1];
        Some(k + 1)
  }

  /** What `dirs.retain(|x| !is_listen(x))` leaves. */
  function NonListen(dirs: seq<Directive>): (r: seq<Directive>)
    ensures NoListen(r)
  {
    if dirs == [] then []
    else
      var last := dirs[|dirs| - 1];
      NonListen(dirs[..|dirs| - 1]) + (if IsListen(last) then [] else [last])
  }

  /** The directive `replace_listen` inserts for one address. */
  function ListenDirective(a: ListenAddress): Directive {
    Directive(Pos(0, 0), Listen(a))
  }

  function ListenDirectives(lst: seq<ListenAddress>): (r: seq<Directive>)
    ensures |r| == |lst|
    ensures forall k :: 0 <= k < |lst| ==> r[k] == ListenDirective(lst[k])
  {
    seq(|lst|, k requires 0 <= k < |lst| => ListenDirective(lst[k]))
  }

  /** `Vec::insert`, which panics unless the index is at most the length. */
  function Insert(s: seq<Directive>, i: nat, x: Directive): (r: seq<Directive>)
    requires i <= |s|
    ensures |r| == |s| + 1 && r[i] == x
    ensures r[..i] == s[..i] && r[i + 1..] == s[i..]
  {
    s[..i] + [x] + s[i..]
  }

  /** The list `replace_listen` leaves behind. */
  function ListenReplaced(dirs: seq<Directive>, lst: seq<ListenAddress>): seq<Directive>
  {
    match FirstListen(dirs)
    case None => dirs
    case Some(pos) =>
      var kept := NonListen(dirs);
      NonListenPrefix(dirs, pos);
      kept[..pos] + ListenDirectives(lst) + kept[pos..]
  }

  lemma {:induction false} NonListenAppend(a: seq<Directive>, b: seq<Directive>)
    ensures NonListen(a + b) == NonListen(a) + NonListen(b)
    decreases |b|
  {
    if b == [] {
      assert a + b == a;
    } else {
      var b0 := b[..|b| - 1];
      assert (a + b)[..|a + b| - 1] == a + b0;
      NonListenAppend(a, b0);
    }
  }

  lemma {:induction false} NonListenOfNoListen(dirs: seq<Directive>)
    requires NoListen(dirs)
    ensures NonListen(dirs) == dirs
    decreases |dirs|
  {
    if dirs != [] {
      var d0 := dirs[..|dirs| - 1];
      assert NoListen(d0) by {
        forall i | 0 <= i < |d0| ensures !IsListen(d0[i]) {
          assert d0[i] == dirs[i];
        }
      }
      NonListenOfNoListen(d0);
      assert dirs == d0 + [dirs[|dirs| - 1]];
    }
  }

  /** Everything in front of the first `listen` survives the `retain`. */
  lemma NonListenPrefix(dirs: seq<Directive>, pos: nat)
    requires FirstListen(dirs) == Some(pos)
    ensures pos <= |NonListen(dirs)| && NonListen(dirs)[..pos] == dirs[..pos]
  {
    assert dirs == dirs[..pos] + dirs[pos..];
    assert NoListen(dirs[..pos]) by {
      forall j | 0 <= j < pos ensures !IsListen(dirs[..pos][j]) {
        assert dirs[..pos][j] == dirs[j];
      }
    }
    NonListenAppend(dirs[..pos], dirs[pos..]);
    NonListenOfNoListen(dirs[..pos]);
  }

  /** Every element `retain` keeps was in the list before. */
  lemma {:induction false} NonListenFrom(dirs: seq<Directive>, j: nat)
    requires j < |NonListen(dirs)|
    ensures NonListen(dirs)[j] in dirs
    decreases |dirs|
  {
    var d0 := dirs[..|dirs| - 1];
    if j < |NonListen(d0)| {
      NonListenFrom(d0, j);
      assert forall x :: x in d0 ==> x in dirs;
    }
  }

  /** The method form of `replace_listen`: the position scan, the `retain` and the
      `insert` loop, each insert index checked against the current length. */
  method ReplaceListen(dirs: seq<Directive>, lst: seq<ListenAddress>) returns (r: seq<Directive>)
    ensures r == ListenReplaced(dirs, lst)
  {
    var found: Option<nat> := None;
    var i := 0;
    while i < |dirs| && found.None?
      invariant 0 <= i <= |dirs|
      invariant found.None? ==> forall j :: 0 <= j < i ==> !IsListen(dirs[j])
      invariant found.Some? ==> found == FirstListen(dirs)
    {
      if IsListen(dirs[i]) {
        found := Some(i);
      }
      i := i + 1;
    }
    if found.None? {
      return dirs;
    }
    var pos := found.value;
    var kept: seq<Directive> := [];
    for j := 0 to |dirs|
      invariant kept == NonListen(dirs[..j])
    {
      assert dirs[..j + 1][..j] == dirs[..j];
      if !IsListen(dirs[j]) {
        kept := kept + [dirs[j]];
      }
    }
    assert dirs[..|dirs|] == dirs;
    NonListenPrefix(dirs, pos);
    r := kept;
    for idx := 0 to |lst|
      invariant |r| == |kept| + idx
      invariant r == kept[..pos] + ListenDirectives(lst[..idx]) + kept[pos..]
    {
      r := Insert(r, pos + idx, ListenDirective(lst[idx]));
      InsertStep(kept, pos, lst, idx);
    }
    assert lst[..|lst|] == lst;
  }

  lemma InsertStep(kept: seq<Directive>, pos: nat, lst: seq<ListenAddress>, idx: nat)
    requires pos <= |kept| && idx < |lst|
    ensures Insert(kept[..pos] + ListenDirectives(lst[..idx]) + kept[pos..], pos + idx, ListenDirective(lst[idx]))
         == kept[..pos] + ListenDirectives(lst[..idx + 1]) + kept[pos..]
  {
    var before := kept[..pos] + ListenDirectives(lst[..idx]);
    var s := before + kept[pos..];
    assert s[..pos + idx] == before;
    assert s[pos + idx..] == kept[pos..];
    assert ListenDirectives(lst[..idx + 1]) == ListenDirectives(lst[..idx]) + [ListenDirective(lst[idx])];
  }

  // ---------------------------------------------------------------------------
  // What the replaced list looks like

  /** A list without `listen` is left as it is. */
  lemma ListenReplacedNoListen(dirs: seq<Directive>, lst: seq<ListenAddress>)
    requires NoListen(dirs)
    ensures ListenReplaced(dirs, lst) == dirs
  {
  }

  /** Otherwise the supplied addresses stand, in order, at `pos..pos+|lst|`, where
      `pos` is the index of the first original `listen`, and nothing else in the
      list is a `listen`. */
  lemma ListenReplacedPositions(dirs: seq<Directive>, lst: seq<ListenAddress>, pos: nat)
    requires FirstListen(dirs) == Some(pos)
    ensures var r := ListenReplaced(dirs, lst);
      && pos <= |NonListen(dirs)| && |r| == |NonListen(dirs)| + |lst|
      && r[..pos] == dirs[..pos]
      && (forall k :: 0 <= k < |lst| ==> r[pos + k] == ListenDirective(lst[k]))
      && (forall i :: 0 <= i < |r| ==> (IsListen(r[i]) <==> pos <= i < pos + |lst|))
  {
    var kept := NonListen(dirs);
    NonListenPrefix(dirs, pos);
    SplicePositions(kept, pos, lst);
  }

  lemma SplicePositions(kept: seq<Directive>, pos: nat, lst: seq<ListenAddress>)
    requires pos <= |kept| && NoListen(kept)
    ensures var r := kept[..pos] + ListenDirectives(lst) + kept[pos..];
      && |r| == |kept| + |lst|
      && r[..pos] == kept[..pos]
      && (forall k :: 0 <= k < |lst| ==> r[pos + k] == ListenDirective(lst[k]))
      && (forall i :: 0 <= i < |r| ==> (IsListen(r[i]) <==> pos <= i < pos + |lst|))
  {
    var r := kept[..pos] + ListenDirectives(lst) + kept[pos..];
    forall i | 0 <= i < |r| ensures IsListen(r[i]) <==> pos <= i < pos + |lst| {
      if i < pos {
        assert r[i] == kept[i];
      } else if i >= pos + |lst| {
        assert r[i] == kept[i - |lst|];
      }
    }
  }

  /** ... and the other directives keep their relative order. */
  lemma ListenReplacedOrder(dirs: seq<Directive>, lst: seq<ListenAddress>)
    ensures NonListen(ListenReplaced(dirs, lst)) == NonListen(dirs)
  {
    match FirstListen(dirs)
    case None =>
      NonListenOfNoListen(dirs);
    case Some(pos) =>
      var kept := NonListen(dirs);
      NonListenPrefix(dirs, pos);
      SpliceOrder(kept, pos, lst);
  }

  lemma SpliceOrder(kept: seq<Directive>, pos: nat, lst: seq<ListenAddress>)
    requires pos <= |kept| && NoListen(kept)
    ensures NonListen(kept[..pos] + ListenDirectives(lst) + kept[pos..]) == kept
  {
    var a, m, b := kept[..pos], ListenDirectives(lst), kept[pos..];
    assert NoListen(a) by {
      forall j | 0 <= j < |a| ensures !IsListen(a[j]) {
        assert a[j] == kept[j];
      }
    }
    assert NoListen(b) by {
      forall j | 0 <= j < |b| ensures !IsListen(b[j]) {
        assert b[j] == kept[pos + j];
      }
    }
    NonListenAppend(a + m, b);
    NonListenAppend(a, m);
    NonListenOfNoListen(a);
    NonListenOfNoListen(b);
    NoListenOfInserted(lst);
    assert NonListen(a + m + b) == a + [] + b;
    assert a + [] + b == kept;
  }

  lemma {:induction false} NoListenOfInserted(lst: seq<ListenAddress>)
    ensures NonListen(ListenDirectives(lst)) == []
    decreases |lst|
  {
    if lst != [] {
      var l0 := lst[..|lst| - 1];
      assert ListenDirectives(lst)[..|lst| - 1] == ListenDirectives(l0);
      NoListenOfInserted(l0);
    }
  }

  /** `listen` entries that are not next to each other are removed all the same:
      with `listen a; x; listen b;` and one address `c`, the result is `listen c; x;`. */
  lemma SeparatedListensCollapse(p: Pos, a: ListenAddress, b: ListenAddress, c: ListenAddress, x: Directive)
    requires !IsListen(x)
    ensures ListenReplaced([Directive(p, Listen(a)), x, Directive(p, Listen(b))], [c])
         == [ListenDirective(c), x]
  {
    var dirs := [Directive(p, Listen(a)), x, Directive(p, Listen(b))];
    assert dirs[..2][..1] == [dirs[0]];
    assert NonListen(dirs) == NonListen(dirs[..2]) == NonListen([dirs[0]]) + [x];
    assert [dirs[0]][..0] == [];
  }

  /** Every directive of the new list was in the old one or is a fresh `listen`,
      so the list gets no deeper. */
  lemma ListenReplacedFrom(dirs: seq<Directive>, lst: seq<ListenAddress>, i: nat)
    requires i < |ListenReplaced(dirs, lst)|
    ensures ListenReplaced(dirs, lst)[i] in dirs || IsListen(ListenReplaced(dirs, lst)[i])
  {
    var first := FirstListen(dirs);
    if first.Some? {
      var kept, m := NonListen(dirs), ListenDirectives(lst);
      forall j | 0 <= j < |kept| ensures kept[j] in dirs {
        NonListenFrom(dirs, j);
      }
      ListenReplacedSplice(dirs, lst, first.value);
      SpliceFrom(dirs, kept, first.value, m, i);
    } else {
      assert dirs[i] in dirs;
    }
  }

  /** An element of a splice comes from the kept part or from the inserted one. */
  lemma SpliceFrom(dirs: seq<Directive>, kept: seq<Directive>, pos: nat, m: seq<Directive>, i: nat)
    requires pos <= |kept| && i < |kept| + |m|
    requires forall j :: 0 <= j < |kept| ==> kept[j] in dirs
    requires forall j :: 0 <= j < |m| ==> IsListen(m[j])
    ensures (kept[..pos] + m + kept[pos..])[i] in dirs || IsListen((kept[..pos] + m + kept[pos..])[i])
  {
    SpliceElement(kept, pos, m, i);
    if i < pos {
      assert kept[i] in dirs;
    } else if pos + |m| <= i {
      assert kept[i - |m|] in dirs;
    } else {
      assert IsListen(m[i - pos]);
    }
  }

  /** The list `replace_listen` leaves when there is a `listen`. */
  lemma ListenReplacedSplice(dirs: seq<Directive>, lst: seq<ListenAddress>, pos: nat)
    requires FirstListen(dirs) == Some(pos)
    ensures pos <= |NonListen(dirs)|
    ensures ListenReplaced(dirs, lst) == NonListen(dirs)[..pos] + ListenDirectives(lst) + NonListen(dirs)[pos..]
  {
    NonListenPrefix(dirs, pos);
  }

  /** Where the elements of a splice come from. */
  lemma SpliceElement(kept: seq<Directive>, pos: nat, m: seq<Directive>, i: nat)
    requires pos <= |kept| && i < |kept| + |m|
    ensures i < pos ==> (kept[..pos] + m + kept[pos..])[i] == kept[i]
    ensures pos <= i < pos + |m| ==> (kept[..pos] + m + kept[pos..])[i] == m[i - pos]
    ensures pos + |m| <= i ==> (kept[..pos] + m + kept[pos..])[i] == kept[i - |m|]
  {
  }

  lemma ListenReplacedHeight(dirs: seq<Directive>, lst: seq<ListenAddress>)
    ensures ListHeight(ListenReplaced(dirs, lst)) <= ListHeight(dirs)
  {
    var r := ListenReplaced(dirs, lst);
    forall i | 0 <= i < |r| ensures Height(r[i]) <= ListHeight(dirs) {
      ListenReplacedFrom(dirs, lst, i);
      if r[i] in dirs {
        var j :| 0 <= j < |dirs| && dirs[j] == r[i];
        HeightOfElement(dirs, j);
      }
    }
    ListHeightAtMost(r, ListHeight(dirs));
  }
}
