/** The collaborators the engine calls but does not implement: the nginx_config
    parser and printer, the regex and url crates, the file system and the resolver.
    Each is a total function supplied by the caller, so every property proved here
    holds whatever they do. */
module Foreign {
  import opened Wrappers
  import opened Tree
  import opened Errors

  /** `url::Host`. */
  datatype Host = Domain(name: string) | Ipv4(text: string) | Ipv6(text: string)

  /** A 16-bit port number, as `url::Url::port` returns. */
  type Port = p: nat | p < 0x1_0000

  /** What the hostname check uses of a parsed `url::Url`: its host and explicit port. */
  datatype Url = Url(host: Option<Host>, port: Option<Port>)

  datatype Env = Env(
    /** `Value`'s `Display`. */
    renderValue: Value -> string,
    /** `Value::from_str`. */
    parseValue: string -> Result<Value, ParseError>,
    /** `parse_proxy`: the text parsed as the argument of one `proxy_pass`. */
    parseProxy: string -> Result<Value, ParseError>,
    /** `nginx_config::parse_main`. */
    parseMain: string -> Result<MainTree, ParseError>,
    /** `nginx_config::parse_directives`. */
    parseDirectives: string -> Result<seq<Directive>, ParseError>,
    /** `Main`'s `Display`. */
    renderMain: MainTree -> string,
    /** `Directive`'s `Display`. */
    renderDirective: Directive -> string,
    /** `Regex::new(pattern)`: `None` when the pattern compiles, else the error. */
    regexError: string -> Option<ParseError>,
    /** `Regex::new(pattern).replace(text, repl)`: replaces the first match only. */
    regexReplace: (string, string, string) -> string,
    /** `Regex::new(pattern).is_match(text)`. */
    regexIsMatch: (string, string) -> bool,
    /** `read_to_string`. */
    readFile: string -> Result<string, IoError>,
    /** `file.parent().join(include)`. */
    joinIncludePath: (string, string) -> string,
    /** `Url::parse`. */
    parseUrl: string -> Result<Url, ParseError>,
    /** `(host, port).to_socket_addrs()`: Ok when the name resolves. */
    resolve: (string, Port) -> Result<(), IoError>
  )
}
