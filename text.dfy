/** String helpers standing in for the `str` methods the source relies on.
    Strings are sequences of characters; indices are character positions. */
module Text {
  import opened Wrappers

  predicate StartsWith(s: string, p: string) {
    |p| <= |s| && s[..|p|] == p
  }

  predicate EndsWith(s: string, p: string) {
    |p| <= |s| && s[|s| - |p|..] == p
  }

  /** `str::find(c)`: the index of the first occurrence of `c`. */
  function Find(s: string, c: char): (r: Option<nat>)
    ensures r.Some? ==> r.value < |s| && s[r.value] == c && c !in s[..r.value]
    ensures r.None? <==> c !in s
  {
    if |s| == 0 then None
    else if s[0] == c then Some(0)
    else match Find(s[1..], c)
         case None => None
         case Some(k) => assert s[..k + 1] == [s[0]] + s[1..][..k]; Some(k + 1)
  }

  /** `s.splitn(2, c)`: the text before the first `c`, and what follows it if
      there is a `c` at all. */
  function SplitOnce(s: string, c: char): (r: (string, Option<string>))
    ensures c !in r.0
    ensures r.1.None? <==> c !in s
    ensures r.1.None? ==> r.0 == s
    ensures r.1.Some? ==> s == r.0 + [c] + r.1.value
  {
    match Find(s, c)
    case None => (s, None)
    case Some(k) =>
      assert s == s[..k] + [c] + s[k + 1..];
      (s[..k], Some(s[k + 1..]))
  }

  lemma SplitOnceUnique(s: string, c: char, a: string, b: string)
    requires c !in a && s == a + [c] + b
    ensures SplitOnce(s, c) == (a, Some(b))
  {
    assert s[|a|] == c;
    assert s[..|a|] == a;
    var k := Find(s, c).value;
    assert k == |a|;
    assert s[k + 1..] == b;
  }

  /** The fragment rendering of a list: the parts separated by single newlines. */
  function JoinLines(parts: seq<string>): string
  {
    if |parts| == 0 then ""
    else if |parts| == 1 then parts[0]
    else JoinLines(parts[..|parts| - 1]) + "\n" + parts[|parts| - 1]
  }

  /** `s.split(c)`: the pieces between the occurrences of `c`, empty ones included.
      At `\n` it is the inverse of JoinLines on newline-free parts. */
  function Split(s: string, c: char): (r: seq<string>)
    ensures |r| > 0
    decreases |s|
  {
    match Find(s, c)
    case None => [s]
    case Some(k) => [s[..k]] + Split(s[k + 1..], c)
  }

  predicate NoNewline(parts: seq<string>) {
    forall i :: 0 <= i < |parts| ==> '\n' !in parts[i]
  }

  lemma {:induction false} JoinLinesFirst(parts: seq<string>)
    requires |parts| >= 2
    ensures JoinLines(parts) == parts[0] + "\n" + JoinLines(parts[1..])
    decreases |parts|
  {
    if |parts| > 2 {
      var init := parts[..|parts| - 1];
      JoinLinesFirst(init);
      assert init[1..] == parts[1..][..|parts[1..]| - 1];
    } else {
      assert parts[1..] == [parts[1]];
    }
  }

  lemma SplitCons(a: string, c: char, rest: string)
    requires c !in a
    ensures Split(a + [c] + rest, c) == [a] + Split(rest, c)
  {
    SplitOnceUnique(a + [c] + rest, c, a, rest);
  }

  /** Rendering newline-free parts and splitting at newlines gives the parts back:
      exactly one separator between neighbours, none before the first or after the last. */
  lemma {:induction false} SplitJoinLines(parts: seq<string>)
    requires |parts| > 0 && NoNewline(parts)
    ensures Split(JoinLines(parts), '\n') == parts
    decreases |parts|
  {
    assert '\n' !in parts[0];
    if |parts| == 1 {
      assert Find(parts[0], '\n').None?;
    } else {
      var first, rest := parts[0], parts[1..];
      assert NoNewline(rest) by {
        forall i | 0 <= i < |rest| ensures '\n' !in rest[i] {
          assert rest[i] == parts[i + 1];
        }
      }
      var tail := JoinLines(rest);
      JoinLinesFirst(parts);
      assert JoinLines(parts) == first + ['\n'] + tail;
      SplitCons(first, '\n', tail);
      SplitJoinLines(rest);
      assert parts == [first] + rest;
    }
  }
}
