/** `Config` of src/config.rs: a parsed file or fragment, the file it came from, and
    the way it is printed back. */
module ConfigFile {
  import opened Wrappers
  import opened Text
  import opened Tree
  import opened Errors
  import opened Foreign

  /** What the text of a file is parsed as: a whole configuration or the contents
      of an `http`, `server` or `location` block. */
  datatype EntryPoint = Main | Http | Server | Location

  /** The parsed text, tagged with the entry point it was parsed for. */
  datatype Ast =
    | MainAst(main: MainTree)
    | HttpAst(dirs: seq<Directive>)
    | ServerAst(dirs: seq<Directive>)
    | LocationAst(dirs: seq<Directive>)

  function EntryOf(ast: Ast): EntryPoint
  {
    match ast
    case MainAst(_) => Main
    case HttpAst(_) => Http
    case ServerAst(_) => Server
    case LocationAst(_) => Location
  }

  /** `directives()`: the top-level list, whatever the entry point. */
  function DirectivesOf(ast: Ast): seq<Directive>
  {
    match ast
    case MainAst(m) => m.directives
    case HttpAst(ds) => ds
    case ServerAst(ds) => ds
    case LocationAst(ds) => ds
  }

  /** A write through `directives_mut()`: the same list is replaced and the entry
      point is kept. */
  function WithDirectives(ast: Ast, ds: seq<Directive>): (r: Ast)
    ensures EntryOf(r) == EntryOf(ast)
    ensures DirectivesOf(r) == ds
  {
    match ast
    case MainAst(m) => MainAst(MainTree(ds))
    case HttpAst(_) => HttpAst(ds)
    case ServerAst(_) => ServerAst(ds)
    case LocationAst(_) => LocationAst(ds)
  }

  /** `directives_mut()` reaches the list `directives()` reads: writing back what was
      read changes nothing, and two writes leave only the second. */
  lemma DirectivesMutSame(ast: Ast, a: seq<Directive>, b: seq<Directive>)
    ensures WithDirectives(ast, DirectivesOf(ast)) == ast
    ensures WithDirectives(WithDirectives(ast, a), b) == WithDirectives(ast, b)
  {
  }

  /** An `Ast` is determined by its entry point and its top-level list. */
  lemma AstDetermined(x: Ast, y: Ast)
    requires EntryOf(x) == EntryOf(y) && DirectivesOf(x) == DirectivesOf(y)
    ensures x == y
  {
  }

  /** The parse step of `_partial_file`: the whole-file parser for `Main`, the
      fragment parser for the three block entry points. */
  function ParseAst(env: Env, entry: EntryPoint, text: string): (r: Result<Ast, ReadError>)
    ensures r.Ok? ==> EntryOf(r.value) == entry
    ensures r.Err? ==> r.error.Syntax?
  {
    match entry
    case Main =>
      (match env.parseMain(text)
       case Ok(m) => Ok(MainAst(m))
       case Err(e) => Err(Syntax(e)))
    case _ =>
      match env.parseDirectives(text)
      case Err(e) => Err(Syntax(e))
      case Ok(ds) =>
        Ok(if entry == Http then HttpAst(ds) else if entry == Server then ServerAst(ds) else LocationAst(ds))
  }

  /** Reading then parsing; a failed read is an `Input` error and no parse happens. */
  function LoadAst(env: Env, entry: EntryPoint, path: string): Result<Ast, ReadError>
  {
    match env.readFile(path)
    case Err(e) => Err(Input(e))
    case Ok(text) => ParseAst(env, entry, text)
  }

  /** What the entry point selects: `Main` succeeds exactly when the whole-file
      parser does and keeps its tree; the block entry points succeed exactly when
      the fragment parser does and keep its list. */
  lemma ParseAstSpec(env: Env, entry: EntryPoint, text: string)
    ensures entry == Main ==>
      (ParseAst(env, entry, text).Ok? <==> env.parseMain(text).Ok?) &&
      (env.parseMain(text).Ok? ==> ParseAst(env, entry, text).value == MainAst(env.parseMain(text).value)) &&
      (env.parseMain(text).Err? ==> ParseAst(env, entry, text) == Err(Syntax(env.parseMain(text).error)))
    ensures entry != Main ==>
      (ParseAst(env, entry, text).Ok? <==> env.parseDirectives(text).Ok?) &&
      (env.parseDirectives(text).Ok? ==> DirectivesOf(ParseAst(env, entry, text).value) == env.parseDirectives(text).value) &&
      (env.parseDirectives(text).Err? ==> ParseAst(env, entry, text) == Err(Syntax(env.parseDirectives(text).error)))
  {
  }

  /** The three block entry points parse the same text the same way: the results
      differ only in their tag. */
  lemma FragmentEntriesAgree(env: Env, e1: EntryPoint, e2: EntryPoint, text: string)
    requires e1 != Main && e2 != Main
    ensures ParseAst(env, e1, text).Ok? <==> ParseAst(env, e2, text).Ok?
    ensures ParseAst(env, e1, text).Ok? ==>
      DirectivesOf(ParseAst(env, e1, text).value) == DirectivesOf(ParseAst(env, e2, text).value)
    ensures ParseAst(env, e1, text).Err? ==> ParseAst(env, e1, text) == ParseAst(env, e2, text)
  {
  }

  /** The printed directives of a fragment, one per directive. */
  function Rendered(env: Env, ds: seq<Directive>): (r: seq<string>)
    ensures |r| == |ds|
    ensures forall i :: 0 <= i < |ds| ==> r[i] == env.renderDirective(ds[i])
  {
    seq(|ds|, i requires 0 <= i < |ds| => env.renderDirective(ds[i]))
  }

  /** `Display for Config`: the main tree as its own printer prints it; a fragment
      as its directives separated by single newlines. */
  function AstText(env: Env, ast: Ast): string
  {
    match ast
    case MainAst(m) => env.renderMain(m)
    case _ => JoinLines(Rendered(env, DirectivesOf(ast)))
  }

  /** An empty fragment prints as nothing; a non-empty one, when no printed
      directive spans lines, splits at its newlines into exactly the printed
      directives: no newline before the first, none after the last, one between
      neighbours. */
  lemma FragmentText(env: Env, ast: Ast)
    requires !ast.MainAst?
    ensures DirectivesOf(ast) == [] ==> AstText(env, ast) == ""
    ensures DirectivesOf(ast) != [] && NoNewline(Rendered(env, DirectivesOf(ast))) ==>
      Split(AstText(env, ast), '\n') == Rendered(env, DirectivesOf(ast))
  {
    var parts := Rendered(env, DirectivesOf(ast));
    if parts != [] && NoNewline(parts) {
      SplitJoinLines(parts);
    }
  }

  /** The parsed file or fragment and the path it was read from. */
  class Config {
    var filename: Option<string>
    var ast: Ast

    constructor (filename: Option<string>, ast: Ast)
      ensures this.filename == filename && this.ast == ast
    {
      this.filename := filename;
      this.ast := ast;
    }

    function Directives(): seq<Directive>
      reads this
    {
      DirectivesOf(ast)
    }

    /** Replacing the list behind `directives_mut()`: the entry point and the file
        name stay. */
    method SetDirectives(ds: seq<Directive>)
      modifies this
      ensures ast == WithDirectives(old(ast), ds)
      ensures Directives() == ds && EntryOf(ast) == EntryOf(old(ast))
      ensures filename == old(filename)
    {
      ast := WithDirectives(ast, ds);
    }

    /** `fmt`: the first directive, then each further one after a newline. */
    method Render(env: Env) returns (s: string)
      ensures s == AstText(env, ast)
    {
      if ast.MainAst? {
        return env.renderMain(ast.main);
      }
      var ds := DirectivesOf(ast);
      s := "";
      if |ds| > 0 {
        s := env.renderDirective(ds[0]);
        for i := 1 to |ds|
          invariant s == JoinLines(Rendered(env, ds[..i]))
        {
          assert Rendered(env, ds[..i + 1])[..i] == Rendered(env, ds[..i]);
          s := s + "\n" + env.renderDirective(ds[i]);
        }
        assert ds[..|ds|] == ds;
      }
    }
  }

  /** `Config::partial_file`: the file is read and parsed for the entry point, and
      the result remembers the path. */
  method PartialFile(env: Env, entry: EntryPoint, path: string) returns (r: Result<Config, ReadError>)
    ensures r.Ok? <==> LoadAst(env, entry, path).Ok?
    ensures r.Err? ==> r.error == LoadAst(env, entry, path).error
    ensures r.Ok? ==> fresh(r.value)
    ensures r.Ok? ==> r.value.filename == Some(path) && r.value.ast == LoadAst(env, entry, path).value
  {
    var text := env.readFile(path);
    if text.Err? {
      return Err(Input(text.error));
    }
    var ast: Ast;
    if entry == Main {
      var m := env.parseMain(text.value);
      if m.Err? {
        return Err(Syntax(m.error));
      }
      ast := MainAst(m.value);
    } else {
      var ds := env.parseDirectives(text.value);
      if ds.Err? {
        return Err(Syntax(ds.error));
      }
      ast := if entry == Http then HttpAst(ds.value) else if entry == Server then ServerAst(ds.value) else LocationAst(ds.value);
    }
    var cfg := new Config(Some(path), ast);
    return Ok(cfg);
  }
}
