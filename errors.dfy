/** The error values the engine can return. */
module Errors {

  /** Message of a failed parse, from the nginx_config, url or regex crates. */
  type ParseError = string
  /** Message of a failed file read or host lookup. */
  type IoError = string

  /** `ReadError` of src/errors.rs: reading or parsing the main file failed. */
  datatype ReadError = Input(io: IoError) | Syntax(parse: ParseError)

  /** The rule whose `orig=dest` argument lacked the `=`. */
  datatype RuleKind =
    | ServerNameRule
    | ProxyHostRule
    | ProxyRegexRule
    | IfRegexRule
    | RewriteHostRule

  datatype Error =
      /** A rule argument without `=`; the message names the rule but not the argument. */
    | MissingTarget(rule: RuleKind)
      /** A rule or exclusion pattern that does not compile as a regex. */
    | InvalidRegex(pattern: string, cause: ParseError)
      /** A rewritten `proxy_pass` value that no longer parses. */
    | ProxySyntax(cause: ParseError)
      /** A rewritten `rewrite` replacement that no longer parses as a value. */
    | ValueSyntax(cause: ParseError)
      /** An included file that could not be read. */
    | ReadInclude(path: string, cause: IoError)
      /** An included file that does not parse. */
    | IncludeSyntax(cause: ParseError)
      /** An include outside every allowed prefix. */
    | InvalidInclude(path: string, allowed: seq<string>)
      /** The main file could not be loaded. */
    | Load(read: ReadError)
      /** Some `proxy_pass` host failed the resolvability check. */
    | HostnamesUnresolved
      /** `parse_replacement`: the part before `=` is empty. */
    | EmptyDirectiveName
      /** `parse_replacement`: no `=`, or nothing parsed after it. */
    | NoReplacement
      /** `parse_replacement`: more than one directive after `=`. */
    | MultipleReplacements
      /** `parse_replacement`: the text after `=` does not parse. */
    | ReplacementSyntax(cause: ParseError)
}
