/** The parsed directive tree the engine rewrites. The tree itself comes from the
    nginx_config parser, which is not part of this model; this module fixes its shape:
    a directive is a source position and an item, and block items own an ordered list
    of child directives. */
module Tree {
  import opened Wrappers

  datatype Pos = Pos(line: nat, column: nat)

  /** A `Value`: literal text and `$variable` references, in order. */
  datatype ValuePart = Literal(text: string) | Variable(name: string)
  datatype Value = Value(parts: seq<ValuePart>)

  /** The address, port and flags of a `listen` directive, not looked into. */
  datatype ListenAddress = ListenAddress(text: string)

  datatype ServerNamePattern =
    | Exact(name: string)
    | Suffix(name: string)
    | StarSuffix(name: string)
    | StarPrefix(name: string)
    | Regex(pattern: string)

  datatype IfCondition =
    | Eq(subject: Value, literal: string)
    | Neq(subject: Value, literal: string)
    | OtherCondition(operands: seq<Value>)

  datatype Item =
    | Listen(address: ListenAddress)
    | ServerName(names: seq<ServerNamePattern>)
    | ProxyPass(target: Value)
    | If(condition: IfCondition, body: seq<Directive>)
    | Rewrite(regex: string, replacement: Value, flag: Option<string>)
    | Include(path: Value)
      /** `http`, `server`, `location`, `events`, ...: a named block with children. */
    | Block(name: string, args: seq<Value>, children: seq<Directive>)
      /** Any other directive: a name and its arguments. */
    | Simple(name: string, args: seq<Value>)

  datatype Directive = Directive(position: Pos, item: Item)

  /** The tree `parse_main` yields for a whole file. */
  datatype MainTree = MainTree(directives: seq<Directive>)

  /** `Item::directive_name`: the keyword that introduces the directive. */
  function DirectiveName(item: Item): string
  {
    match item
    case Listen(_) => "listen"
    case ServerName(_) => "server_name"
    case ProxyPass(_) => "proxy_pass"
    case If(_, _) => "if"
    case Rewrite(_, _, _) => "rewrite"
    case Include(_) => "include"
    case Block(name, _, _) => name
    case Simple(name, _) => name
  }

  /** `Item::children_mut`: the child list of a block item, if it has one. */
  function Children(item: Item): Option<seq<Directive>>
  {
    match item
    case If(_, body) => Some(body)
    case Block(_, _, children) => Some(children)
    case _ => None
  }

  /** The item with its child list replaced; everything else stays. */
  function WithChildren(item: Item, cs: seq<Directive>): (r: Item)
    requires Children(item).Some?
    ensures Children(r) == Some(cs)
    ensures DirectiveName(r) == DirectiveName(item)
  {
    match item
    case If(c, _) => If(c, cs)
    case Block(n, a, _) => Block(n, a, cs)
  }

  /** Nesting depth: 0 for a directive without a child list. */
  function Height(d: Directive): nat
    decreases d, 1
  {
    match Children(d.item)
    case None => 0
    case Some(cs) => 1 + ListHeight(cs)
  }

  function ListHeight(s: seq<Directive>): nat
    decreases s, 0
  {
    if s == [] then 0
    else
      var a, b := ListHeight(s[..|s| - 1]), Height(s[|s| - 1]);
      if a < b then b else a
  }

  lemma {:induction false} HeightOfElement(s: seq<Directive>, i: nat)
    requires i < |s|
    ensures Height(s[i]) <= ListHeight(s)
    decreases |s|
  {
    if i < |s| - 1 {
      HeightOfElement(s[..|s| - 1], i);
    }
  }

  lemma {:induction false} ListHeightAtMost(s: seq<Directive>, h: nat)
    requires forall i :: 0 <= i < |s| ==> Height(s[i]) <= h
    ensures ListHeight(s) <= h
    decreases |s|
  {
    if s != [] {
      ListHeightAtMost(s[..|s| - 1], h);
    }
  }

  /** `all_directives()`: every directive at every depth, in document order, each
      before its children. */
  function AllDirectives(s: seq<Directive>): seq<Directive>
    decreases ListHeight(s), 1, |s|
  {
    if s == [] then []
    else
      HeightOfElement(s, |s| - 1);
      AllDirectives(s[..|s| - 1]) + Preorder(s[|s| - 1])
  }

  function Preorder(d: Directive): seq<Directive>
    decreases Height(d), 0
  {
    match Children(d.item)
    case None => [d]
    case Some(cs) => [d] + AllDirectives(cs)
  }

  lemma {:induction false} AllDirectivesAppend(a: seq<Directive>, b: seq<Directive>)
    ensures AllDirectives(a + b) == AllDirectives(a) + AllDirectives(b)
    decreases |b|
  {
    if b == [] {
      assert a + b == a;
    } else {
      var b0, last := b[..|b| - 1], b[|b| - 1];
      assert (a + b)[..|a + b| - 1] == a + b0;
      assert (a + b)[|a + b| - 1] == last;
      AllDirectivesAppend(a, b0);
      assert AllDirectives(a + b) == AllDirectives(a + b0) + Preorder(last);
      assert AllDirectives(b) == AllDirectives(b0) + Preorder(last);
    }
  }

  lemma AllDirectivesSingle(d: Directive)
    ensures AllDirectives([d]) == Preorder(d)
  {
    assert [d][..0] == [];
  }

  /** The top-level directives are among all directives. */
  lemma {:induction false} TopLevelListed(s: seq<Directive>, i: nat)
    requires i < |s|
    ensures s[i] in AllDirectives(s)
    decreases |s|
  {
    if i < |s| - 1 {
      TopLevelListed(s[..|s| - 1], i);
    }
  }

  /** `all_directives()` starts with the first top-level directive and proceeds in
      order: each directive is followed by its own subtree. */
  lemma AllDirectivesCons(d: Directive, rest: seq<Directive>)
    ensures AllDirectives([d] + rest) == Preorder(d) + AllDirectives(rest)
  {
    AllDirectivesAppend([d], rest);
    AllDirectivesSingle(d);
  }
}
