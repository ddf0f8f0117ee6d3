# nginx-config-mod: the `modify` engine in Dafny

`nginx-config-mod` is a command-line tool. It loads an nginx configuration file,
rewrites it, checks it and prints it back. This project models the engine behind its
`modify` command and proves properties of that model. The model covers:

- loading a file as a `Config` (`src/config.rs`): a whole configuration, or the body
  of an `http`, `server` or `location` block;
- splicing in the directives of relatively included files;
- substituting `--set-var` variables;
- replacing `listen` directives;
- the five rewrite rules: server-name mapping, proxy-host mapping, proxy-pass regexes,
  `if` regexes and rewrite-host regexes;
- the include allow-list;
- replacement of directives by name;
- the optional resolvability check of every `proxy_pass` host
  (`src/checks/proxy_pass.rs`);
- printing the result.

The configuration tree is a Dafny datatype (`Tree`). The tool itself does not implement
parsing and printing of nginx syntax, URL parsing, regex matching, file reading or host
name lookup. Each of these is a field of the value `Foreign.Env`, a total function the
engine is handed. Every property below holds for every such collaborator.

The modules follow the program:

| module | file | models |
|---|---|---|
| `Text` | text.dfy | the `str` operations used: `find`, `splitn(2, c)`, `split`, `starts_with`, `ends_with` |
| `Tree` | tree.dfy | the directive tree and `all_directives` |
| `Errors` | errors.dfy | `ReadError` and the errors `run` can end with |
| `Foreign` | foreign.dfy | the collaborators (`Env`) |
| `Hostnames` | hostnames.dfy | `relative` and `proxy_subst` |
| `Rules` | rules.dfy | the argument loops and per-directive edits of the rules, the `set_var` map, `replace_by_name` lookup |
| `Listen` | listen.dfy | `replace_listen` |
| `Visit` | visit.dfy | `visit_mutable` and the closures passed to it |
| `WalkFacts` | walk_facts.dfy | what a walk does to a whole tree |
| `Includes` | includes.dfy | `expand_local_includes` and the include allow-list |
| `ProxyCheck` | proxy_check.dfy | `check_selected_hostnames` and `check_hostnames` |
| `ConfigFile` | config.dfy | `Config`, `EntryPoint`, `directives`/`directives_mut`, `Display`, `_partial_file` |
| `Modify` | modify.dfy | `parse_replacement`, the rule functions on a `Config`, and `run` |

How the source's form carries over:

- Loops that update variables are methods with loop invariants. Each such method is
  proved equal to a recursive specification function. The properties are lemmas
  about those functions.
- `Config` is a class. Its `SetDirectives` method is the write through
  `directives_mut()`.
- The rule functions, which take `&mut Config`, are methods that modify the `Config`.
  Each is specified by a function from the old tree to the new tree and the returned
  `Result` (`Modify.ServerNamesRule`, and so on).
- `run` is the method `Modify.Run`. It is proved equal to the function
  `Modify.Pipeline`.
- `print!("{}", cfg)` is modelled by `Run` returning the printed text.

Iterating a `HashMap` gives its entries in no fixed order. The two mapping rules
therefore return the order they used as a ghost out-parameter. `Run` promises its
result for the orders it returns. These orders are constrained only to list each
entry of the map exactly once (`Rules.IsIterationOrder`).

Behaviour of the code worth knowing (the model follows the code):

- The `--listen` help text says the given number of `listen` directives will be
  present in each block. The code only replaces existing ones: a list that holds no
  `listen` is left as it is, and gains none (`Listen.ListenReplacedNoListen`).
- `--listen` removes every `listen` of a list, also ones separated by other
  directives. The new addresses are inserted at the index of the first `listen`
  (`Listen.SeparatedListensCollapse`).
- `--allow-includes` prefixes are compared by path component, as `Path::starts_with`
  does. So `/etc/nginx` does not cover `/etc/nginxfoo/a.conf`
  (`Includes.TextPrefixIsNotPathPrefix`).
- A rule whose closure stores errors keeps only the last one. It walks the whole tree
  before returning it (`Modify.CheckedResult`).
- Each regex is taken to replace its first match only, as `Regex::replace` does. This
  is an assumption about the abstract `Env.regexReplace`, not a proved fact.
- A run that asks for nothing prints the file unchanged only when it holds no
  `include`. The allow-list is checked even when empty, so any include stops the run
  (`Modify.PlainPipelineIdentity`).

## Model

| member | source | states |
|---|---|---|
| Text.SplitOnce | src/bin/nginx_config_mod/modify.rs:214-216 | `splitn(2, '=')`: the first part holds no `=`. With no `=` there is no second part and the first is the whole text. Otherwise the text is first part, then `=`, then second part. |
| Text.SplitOnceUnique | src/bin/nginx_config_mod/modify.rs:121-126 | Any split of a text as `a` + `=` + `b`, with no `=` in `a`, is the one `splitn` finds. |
| Text.SplitJoinLines | src/config.rs:84-88 | Newline-separated parts without newlines split back into exactly those parts. |
| Text.Find | src/bin/nginx_config_mod/modify.rs:184-191 | `str::find` of a character: the index of its first occurrence, and none exactly when it does not occur. |
| Text.JoinLines | src/config.rs:84-88 | Definition: the printed directives with one `\n` between each two. |
| Tree.DirectiveName | src/bin/nginx_config_mod/modify.rs:531 | Definition of `Item::directive_name`: the keyword of the directive, which `replace_by_name` compares with each rule's name. |
| Tree.Children | src/bin/nginx_config_mod/modify.rs:450 | Definition of `Item::children_mut`: the child list of an `if` or a block, and none for any other item. |
| Tree.WithChildren | src/bin/nginx_config_mod/modify.rs:490 | A write through `children_mut`: the new child list is the one given, and the directive name is kept. |
| Text.StartsWith | src/bin/nginx_config_mod/modify.rs:175-178 | Definition of `str::starts_with`, as used by `proxy_subst` and the scheme guard at lines 341-343. |
| Text.EndsWith | src/bin/nginx_config_mod/modify.rs:158-161 | Definition of `str::ends_with`, as used by `relative` and at lines 192-196 of `proxy_subst`. |
| Text.Split | src/bin/nginx_config_mod/modify.rs:519 | Definition: the pieces between the separators, empty ones included, which `Path::components` is built on; never an empty list. |
| Includes.Verdict | src/bin/nginx_config_mod/modify.rs:519-521 | Definition: `Ok` when no include violates the allow-list, otherwise the `bail!` naming the first violating path and the allow-list. |
| Modify.MappingOf | src/bin/nginx_config_mod/modify.rs:212-222 | Definition: the `HashMap` the argument loop builds (also lines 379-389), or the empty map when an argument has no `=`. |
| Tree.AllDirectives | src/checks/proxy_pass.rs:31 | Definition of `all_directives()`: every directive at every depth, each before its children, in document order. |
| Tree.AllDirectivesAppend | src/checks/proxy_pass.rs:31 | `all_directives` of two lists is the first's listing followed by the second's. |
| Tree.AllDirectivesCons | src/bin/nginx_config_mod/modify.rs:514 | `all_directives` lists a directive, then its descendants, then the following directives. |
| Tree.TopLevelListed | src/bin/nginx_config_mod/modify.rs:514 | Every top-level directive is among `all_directives`. |
| Hostnames.Relative | src/bin/nginx_config_mod/modify.rs:157-169 | A returned prefix, followed by the anchor, is the name, and the prefix is empty or ends in a dot. |
| Hostnames.RelativeExactly | src/bin/nginx_config_mod/modify.rs:157-169 | Both directions: `relative` gives `p` exactly when `p` + anchor is the name and `p` is empty or ends in `.`. |
| Hostnames.RelativeExamples | src/bin/nginx_config_mod/modify.rs:157-169 | `www.example.com` gives `www.`; `example.com` gives the empty prefix; `notexample.com` does not match. |
| Hostnames.Scheme | src/bin/nginx_config_mod/modify.rs:175-183 | Only `http://` or `https://` is accepted, and only at the start; anything else gives no result. |
| Hostnames.CutAtSlash | src/bin/nginx_config_mod/modify.rs:184-187 | The cut at the first `/`: the two parts reassemble the text, the first has no `/`, and the second is empty or starts with `/`. |
| Hostnames.SplitHost | src/bin/nginx_config_mod/modify.rs:184-191 | The host has no `/` and no `:`. The rest is empty or starts with `/` or `:`. Together they reassemble the text. |
| Hostnames.ProxySubst | src/bin/nginx_config_mod/modify.rs:171-205 | A result `(pre, suf)` means: the name is `pre` + anchor + `suf`; `pre` is the scheme followed by a label prefix; `suf` starts at a port or a path. |
| Hostnames.ProxySubstComplete | src/bin/nginx_config_mod/modify.rs:171-205 | The converse: every `scheme host rest` whose host is a label prefix plus the anchor gives exactly `(scheme + prefix, rest)`. |
| Hostnames.CutAtSlashUnique | src/bin/nginx_config_mod/modify.rs:184-187 | The first `/` of `host + rest`, when `host` has none, lies in `rest`. |
| Hostnames.SplitHostUnique | src/bin/nginx_config_mod/modify.rs:184-191 | Text of the form host + port-or-path is cut exactly there. |
| Hostnames.MapProxyHostPreserves | src/bin/nginx_config_mod/modify.rs:395-401 | Mapping one proxy host keeps the scheme, the label prefix and the `:port/path` part verbatim, and swaps only the origin domain. |
| Hostnames.MapProxyHost | src/bin/nginx_config_mod/modify.rs:396-400 | Definition: one host mapping applied to a proxy text: `pre + new + suf` where `proxy_subst` matches, the text itself otherwise. |
| Hostnames.MapProxyHostExample | src/bin/nginx_config_mod/modify.rs:395-401 | `http://api.example.com:8080/v1` with `example.com=example.net` becomes `http://api.example.net:8080/v1`: the port and path survive. |
| Rules.Pairs | src/bin/nginx_config_mod/modify.rs:213-222 | The only error of the argument loop is the rule's missing-target error. |
| Rules.PairsSpec | src/bin/nginx_config_mod/modify.rs:213-222 | Both directions: the loop succeeds exactly when every argument holds a `=`. It then yields each argument split at its first `=`, in argument order. |
| Rules.ParsePairs | src/bin/nginx_config_mod/modify.rs:380-389 | The `for item in names` loop with its early `bail!` computes `Pairs`. |
| Rules.PairsPrefixErr | src/bin/nginx_config_mod/modify.rs:219-221 | A failure among the first arguments is the failure of the whole loop, whatever follows. |
| Rules.RegexPairs | src/bin/nginx_config_mod/modify.rs:253-264 | The regex argument loop fails only with a missing target or a pattern that does not compile. |
| Rules.RegexPairsSpec | src/bin/nginx_config_mod/modify.rs:253-264 | Both directions: it succeeds exactly when every argument holds a `=` and every pattern compiles, and then yields the same pairs as the plain split. |
| Rules.ParseRegexPairs | src/bin/nginx_config_mod/modify.rs:323-334 | The loop with `Regex::new(orig)?` and `bail!` computes `RegexPairs`, stopping at the first failing argument. |
| Rules.RegexPairsPrefixErr | src/bin/nginx_config_mod/modify.rs:258-262 | The error of the first failing argument is the loop's error. |
| Rules.Mapping | src/bin/nginx_config_mod/modify.rs:216-217 | The `HashMap` holds exactly the keys of the pairs. |
| Rules.MappingLastWins | src/bin/nginx_config_mod/modify.rs:217 | A key's value is that of its last pair: a later `insert` replaces an earlier one. |
| Rules.IterationOrder | src/bin/nginx_config_mod/modify.rs:231 | Iterating the map yields each entry exactly once, and every key appears. |
| Rules.IterationOrderExists | src/bin/nginx_config_mod/modify.rs:395 | Every map has an iteration order. |
| Rules.VarMapLastWins | src/bin/nginx_config_mod/modify.rs:478-483 | `name=value` sets `name` to the text after its first `=`; the last argument naming a variable wins; a bare `name` maps to the empty string. |
| Rules.ParseVars | src/bin/nginx_config_mod/modify.rs:478-483 | The `set_var` loop computes that map. |
| Rules.VarMap | src/bin/nginx_config_mod/modify.rs:478-483 | Definition: the `set_var` map, built argument by argument. |
| Rules.VarMapKeys | src/bin/nginx_config_mod/modify.rs:478-483 | Both directions: a name is a key of the map exactly when some argument's part before its first `=` is that name. |
| Rules.ApplyRegexesAppend | src/bin/nginx_config_mod/modify.rs:270-272 | Running two regex lists in turn is running their concatenation. |
| Rules.ApplyRegexesCons | src/bin/nginx_config_mod/modify.rs:309-311 | The first regex sees the original text and the rest see its output. |
| Rules.RegexChain | src/bin/nginx_config_mod/modify.rs:354-356 | The replacements are sequential, not simultaneous: `A=B` then `B=C` turns `A` into `C`. |
| Rules.RunRegexes | src/bin/nginx_config_mod/modify.rs:270-272 | The loop computes `ApplyRegexes`. |
| Rules.ApplyRegexes | src/bin/nginx_config_mod/modify.rs:270-272 | Definition: each regex, in argument order, replaces its first match in the previous output. |
| Rules.MapNameAppend | src/bin/nginx_config_mod/modify.rs:231-236 | Each mapping applies to the result of the mappings before it. |
| Rules.MapNameOne | src/bin/nginx_config_mod/modify.rs:232-235 | One mapping keeps the label prefix and swaps the origin for the destination. A name the origin does not match is left as it is. |
| Rules.MapNameUnmatched | src/bin/nginx_config_mod/modify.rs:231-236 | A name that no mapping matches stays as it is, whatever the iteration order. |
| Rules.MapNameExamples | src/bin/nginx_config_mod/modify.rs:231-236 | `www.example.com` becomes `www.example.org`; `notexample.com` is untouched. |
| Rules.MapNameLoop | src/bin/nginx_config_mod/modify.rs:231-236 | The loop with `continue` computes `MapName`. |
| Rules.MapName | src/bin/nginx_config_mod/modify.rs:231-236 | Definition: each mapping, in iteration order, rewrites the name when `relative` matches it. |
| Rules.MapPatternSpec | src/bin/nginx_config_mod/modify.rs:226-241 | The kind of a `server_name` pattern never changes. `x.*` (StarPrefix) and regex names are untouched. Exact, suffix and `*.x` (StarSuffix) names are mapped by `MapName`. |
| Rules.MapPatterns | src/bin/nginx_config_mod/modify.rs:226 | The list of patterns keeps its length. |
| Rules.MapPatternsLoop | src/bin/nginx_config_mod/modify.rs:226-242 | The `for name in names` loop computes `MapPatterns`. |
| Rules.MapPattern | src/bin/nginx_config_mod/modify.rs:227-240 | Definition: exact, suffix and `*.x` names are mapped, other kinds are kept. |
| Rules.MapProxyAppend | src/bin/nginx_config_mod/modify.rs:395-401 | Host mappings compose in iteration order. |
| Rules.MapProxyNoScheme | src/bin/nginx_config_mod/modify.rs:175-183 | A proxy target without `http://` or `https://` is never changed. |
| Rules.MapProxyLoop | src/bin/nginx_config_mod/modify.rs:395-401 | The loop computes `MapProxy`. |
| Rules.MapProxy | src/bin/nginx_config_mod/modify.rs:395-401 | Definition: each host mapping, in iteration order, applied to the proxy text. |
| Rules.RewriteScheme | src/bin/nginx_config_mod/modify.rs:341-343 | A rewritable replacement starts with `http://`, `https://` or `$scheme://`. |
| Rules.HasRewriteScheme | src/bin/nginx_config_mod/modify.rs:341-343 | Definition: the text starts with `http://`, `https://` or `$scheme://`. |
| Rules.FirstSlashOfScheme | src/bin/nginx_config_mod/modify.rs:347 | The first `/` of such a text is the first of the two ending the scheme, so the `unwrap` cannot fail. |
| Rules.SchemeSplit | src/bin/nginx_config_mod/modify.rs:347 | `split_at(find('/') + 2)` cuts exactly after the scheme. |
| Rules.RewriteParts | src/bin/nginx_config_mod/modify.rs:341-352 | Both directions: the cut exists exactly for those schemes. Scheme, host and path reassemble the text; the host has no `/`; the path is empty or starts at `/`. |
| Rules.RewriteSchemeOf | src/bin/nginx_config_mod/modify.rs:341-343 | Each of the three schemes is recognised as itself. |
| Rules.RewriteHost | src/bin/nginx_config_mod/modify.rs:340-361 | Both directions: a host edit happens exactly when the text has one of the three schemes. |
| Rules.RewriteHostKeeps | src/bin/nginx_config_mod/modify.rs:353-361 | Only the host is edited: the scheme and the path from the next `/` on are kept verbatim. |
| Rules.FirstRule | src/bin/nginx_config_mod/modify.rs:530-534 | Both directions: a result is the first rule, in argument order, of that name, and there is none exactly when no rule has the name. |
| Rules.FindRule | src/bin/nginx_config_mod/modify.rs:530-534 | The loop with `break` computes `FirstRule`. |
| Rules.SubstValue | src/bin/nginx_config_mod/modify.rs:484 | `replace_vars` maps the parts of a value one by one. |
| Rules.SubstValues | src/bin/nginx_config_mod/modify.rs:484 | Substitution keeps the number of values. |
| Rules.SubstItem | src/bin/nginx_config_mod/modify.rs:484 | Substitution keeps the directive's name and leaves its child list to the walk. |
| Rules.SubstPart | src/bin/nginx_config_mod/modify.rs:484 | Definition: a reference to a mapped variable becomes its value as a literal; anything else stays. |
| Rules.SubstCondition | src/bin/nginx_config_mod/modify.rs:484 | Definition: substitution in the subject of an `=` or `!=` condition and in the operands of any other; the literal compared against is left alone. |
| Rules.SubstItemEmpty | src/bin/nginx_config_mod/modify.rs:478-484 | With no `--set-var` the substitution changes nothing. |
| Rules.SubstValueResolves | src/bin/nginx_config_mod/modify.rs:484 | Afterwards no reference to a given variable is left. A given variable becomes its literal. Unknown variables and literals stay. |
| Rules.SetVarResolves | src/bin/nginx_config_mod/modify.rs:478-484 | A reference to a variable no `--set-var` argument names is kept as it is. One that some argument names becomes the literal the map gives it. |
| Listen.FirstListen | src/bin/nginx_config_mod/modify.rs:418 | `position(is_listen)`: none exactly when there is no `listen`; otherwise the index of the first. |
| Listen.NonListen | src/bin/nginx_config_mod/modify.rs:419 | `retain(!is_listen)` leaves no `listen`. |
| Listen.Insert | src/bin/nginx_config_mod/modify.rs:421-424 | `Vec::insert` at an index at most the length: one element longer, the element at the index, everything else shifted. |
| Listen.ListenDirectives | src/bin/nginx_config_mod/modify.rs:420-424 | One `listen` at position 0:0 per address, in order. |
| Listen.NonListenAppend | src/bin/nginx_config_mod/modify.rs:419 | `retain` works element-wise over concatenation. |
| Listen.NonListenPrefix | src/bin/nginx_config_mod/modify.rs:418-419 | Everything before the first `listen` survives the `retain` in place, so the insertion index is in bounds. |
| Listen.NonListenFrom | src/bin/nginx_config_mod/modify.rs:419 | `retain` keeps only directives that were there. |
| Listen.ReplaceListen | src/bin/nginx_config_mod/modify.rs:416-427 | The position scan, the `retain` and the insertion loop compute `ListenReplaced`. |
| Listen.ListenReplaced | src/bin/nginx_config_mod/modify.rs:416-427 | Definition: with no `listen` the list as it is; otherwise the list without `listen`s, with the new `listen`s inserted in order at the first old one's index. |
| Listen.IsListen | src/bin/nginx_config_mod/modify.rs:417 | Definition: the `is_listen` test, a `Listen` item. |
| Listen.ListenDirective | src/bin/nginx_config_mod/modify.rs:421-424 | Definition: a `listen` directive for an address, at position 0:0. |
| Listen.ListenReplacedNoListen | src/bin/nginx_config_mod/modify.rs:418 | A list without `listen` is left as it is. |
| Listen.ListenReplacedPositions | src/bin/nginx_config_mod/modify.rs:418-426 | Otherwise the new list has the supplied addresses in order at `pos..pos+n`, where `pos` is the first old `listen`'s index, and no other `listen`. |
| Listen.ListenReplacedOrder | src/bin/nginx_config_mod/modify.rs:419 | The non-`listen` directives keep their relative order. |
| Listen.SeparatedListensCollapse | src/bin/nginx_config_mod/modify.rs:418-426 | `listen a; x; listen b;` with one address `c` becomes `listen c; x;`: separated listens are removed too. |
| Listen.ListenReplacedFrom | src/bin/nginx_config_mod/modify.rs:416-427 | Every directive of the new list was in the old one or is a `listen`. |
| Listen.ListenReplacedHeight | src/bin/nginx_config_mod/modify.rs:416-427 | Replacing listens never makes the list deeper, so the walk over it ends. |
| Visit.FieldOnlyStep | src/bin/nginx_config_mod/modify.rs:223-536 | The closures of the rules edit fields only: child list and directive name stay. |
| Visit.StepHeight | src/bin/nginx_config_mod/modify.rs:223-536 | No closure but that of `replace_by_name` makes a directive deeper. |
| Visit.StepRank | src/bin/nginx_config_mod/modify.rs:528-537 | The child list a step leaves is lower than the directive, measured by the height the visitor leaves it with. For `replace_by_name` that is the replacement's height, given that no directive inside a replacement has a rule's name. So the walk ends. |
| Visit.Admissible | src/bin/nginx_config_mod/modify.rs:528-537 | Definition: no directive strictly inside a `--replace-by-name` replacement item has the name of a rule. This is a sufficient condition for the walk over the copies to end. Without it the source may loop forever (`location=location / { location /a {} }`), or it may end. |
| Visit.Step | src/bin/nginx_config_mod/modify.rs:223-536 | Definition: what one call of each rule's closure does to one item: the new item and the error it stores. |
| Visit.IfStep | src/bin/nginx_config_mod/modify.rs:304-315 | Definition: the regexes run on the literal of `=` and `!=` conditions. |
| Visit.RewriteStep | src/bin/nginx_config_mod/modify.rs:336-369 | Definition: the host of a `rewrite` replacement with a scheme is edited and re-parsed; a failed parse stores the error and keeps the item. |
| Visit.Reparsed | src/bin/nginx_config_mod/modify.rs:402-405 | Definition: the re-parse of a rewritten `proxy_pass` text. |
| Visit.ByNameStep | src/bin/nginx_config_mod/modify.rs:529-536 | Definition: a directive takes the item of the first rule of its name, if any. |
| Visit.Walk | src/bin/nginx_config_mod/modify.rs:223-246 | Definition of `visit_mutable` on a list: each directive is visited in order, and the errors are collected in visiting order. |
| Visit.VisitOne | src/bin/nginx_config_mod/modify.rs:529-536 | Definition of one visit: the closure first, then the walk of the child list the directive then has. A replacement's own children are walked. |
| Visit.LastError | src/bin/nginx_config_mod/modify.rs:265-283 | The `err` accumulator after a series of stores: the last stored error, or its start value when none was stored. |
| Visit.LastErrorAppend | src/bin/nginx_config_mod/modify.rs:275 | Storing two series in turn is storing their concatenation. |
| Visit.LastErrorNone | src/bin/nginx_config_mod/modify.rs:281-283 | An accumulator that starts empty ends empty exactly when nothing was stored. |
| Visit.Apply | src/bin/nginx_config_mod/modify.rs:223-246 | The closure bodies with their loops, run on one item, compute `Step`. |
| Visit.ApplyIf | src/bin/nginx_config_mod/modify.rs:304-315 | The `if_regexes` closure body computes `IfStep`. |
| Visit.ApplyRewrite | src/bin/nginx_config_mod/modify.rs:336-369 | The `rewrite_host_regexes` closure body with its `unwrap` and re-parse computes `RewriteStep`. |
| Visit.Reparse | src/bin/nginx_config_mod/modify.rs:273-276 | `parse_proxy` of the rewritten text: the new value on success, otherwise the old value and the stored error. |
| Visit.VisitMutable | src/bin/nginx_config_mod/modify.rs:266-280 | The walk with the closure's `err` threaded through gives the walked tree and the last error stored. |
| Visit.VisitDirective | src/bin/nginx_config_mod/modify.rs:529-536 | One directive: the closure, then the walk of the child list it leaves, give `VisitOne`'s directive and the accumulator after its errors. |
| WalkFacts.StepErrorsAppend | src/bin/nginx_config_mod/modify.rs:266-280 | The errors are stored in list order. |
| WalkFacts.StepErrorsEmpty | src/bin/nginx_config_mod/modify.rs:266-280 | Both directions: no error is stored exactly when no step reports one. |
| WalkFacts.WalkMap | src/bin/nginx_config_mod/modify.rs:223 | The walk maps the top-level list directive by directive. |
| WalkFacts.VisitOneHead | src/bin/nginx_config_mod/modify.rs:223 | Visiting keeps a directive's position, and its own fields are what the step made. |
| WalkFacts.WalkHeads | src/bin/nginx_config_mod/modify.rs:223-246 | With a field-only closure, the walk visits every directive of the tree once, in `all_directives` order. The tree it leaves is the original one with each item stepped. |
| WalkFacts.VisitHeads | src/bin/nginx_config_mod/modify.rs:223-246 | The same for one directive and its descendants. |
| WalkFacts.WalkError | src/bin/nginx_config_mod/modify.rs:390-412 | Both directions: `err` ends empty exactly when no directive's step fails. Otherwise it holds the error of the last failing directive in document order. |
| WalkFacts.WalkIdentity | src/bin/nginx_config_mod/modify.rs:223 | A closure that changes nothing leaves the tree as it is and stores nothing. |
| WalkFacts.VisitIdentity | src/bin/nginx_config_mod/modify.rs:223 | The same for one directive. |
| WalkFacts.NoVarsIdentity | src/bin/nginx_config_mod/modify.rs:484 | `replace_vars` with no variables leaves the tree as it is. |
| WalkFacts.ServerNamesStep | src/bin/nginx_config_mod/modify.rs:224-245 | `server_names` stores no error and edits only `server_name` items, pattern by pattern, keeping their number. |
| WalkFacts.IfRegexesStep | src/bin/nginx_config_mod/modify.rs:304-315 | `if_regexes` stores no error and edits only the literal of `=` and `!=` conditions. |
| WalkFacts.ProxyStep | src/bin/nginx_config_mod/modify.rs:266-280 | The `proxy_pass` rules touch only `proxy_pass` items. The rewritten text is re-parsed; a failure stores the error and keeps the old value. |
| WalkFacts.RewriteStepSpec | src/bin/nginx_config_mod/modify.rs:336-369 | `rewrite_host_regexes` touches only `rewrite` items with one of the three schemes. Their replacement is the re-parse of the text with its host edited. |
| WalkFacts.ByNameStepSpec | src/bin/nginx_config_mod/modify.rs:529-536 | With no rule of its name a directive is kept. Otherwise the first rule of its name supplies the item. No error is stored. |
| WalkFacts.ByNameVisit | src/bin/nginx_config_mod/modify.rs:529-536 | On the tree a replaced directive becomes exactly the replacement at the same position, and nothing is stored: the walk into the copy changes nothing. An unreplaced directive keeps its own fields. |
| WalkFacts.WalkUnnamed | src/bin/nginx_config_mod/modify.rs:528-537 | A list in which no directive, at any depth, has a rule's name comes out of the walk unchanged, with nothing stored. This is the walk into a copied replacement. |
| WalkFacts.VisitUnnamed | src/bin/nginx_config_mod/modify.rs:528-537 | The same for one directive and its descendants. |
| WalkFacts.ListenVisit | src/bin/nginx_config_mod/modify.rs:489-493 | The listen walk keeps whether a directive is a `listen`, and leaves `listen` directives as they are. |
| WalkFacts.ListenWalk | src/bin/nginx_config_mod/modify.rs:489-493 | The listen walk keeps the length of a list and which entries are `listen`s. |
| WalkFacts.ListenChildList | src/bin/nginx_config_mod/modify.rs:490-492 | A block ends up with the walk of the list `replace_listen` made of its children. |
| WalkFacts.ListenChildrenNone | src/bin/nginx_config_mod/modify.rs:490-492 | A child list without `listen` keeps its length and gains none. |
| WalkFacts.ListenChildrenSome | src/bin/nginx_config_mod/modify.rs:490-492 | Otherwise the supplied addresses stand in order from the first `listen`'s index. |
| Includes.SplitRooted | src/bin/nginx_config_mod/modify.rs:518-519 | `/a/b` splits at `/` into the root's empty piece and the names. |
| Includes.NormalPartsClean | src/bin/nginx_config_mod/modify.rs:519 | Clean names are normal components, one each. |
| Includes.ComponentsRooted | src/bin/nginx_config_mod/modify.rs:519 | The components of `/a/b/c` are the root and the names, in order. |
| Includes.RootedStartsWith | src/bin/nginx_config_mod/modify.rs:519 | Both directions: `Path::starts_with` on such paths holds exactly when the base's names are a prefix of the path's names. |
| Includes.TextPrefixIsNotPathPrefix | src/bin/nginx_config_mod/modify.rs:519 | `/etc/nginxfoo/a.conf` starts with the text `/etc/nginx` but not with the path. |
| Includes.AllowedExample | src/bin/nginx_config_mod/modify.rs:519 | `/etc/nginx` covers `/etc/nginx/conf.d/a.conf`. |
| Includes.RejectedExample | src/bin/nginx_config_mod/modify.rs:519 | `/etc/nginx` does not cover `/etc/secret.conf`. |
| Includes.PathStartsWithSelf | src/bin/nginx_config_mod/modify.rs:519 | Every path covers itself. |
| Includes.Components | src/bin/nginx_config_mod/modify.rs:517-519 | Definition: `Path::components` on Unix: the root or a leading `.`, then the names; empty pieces and inner `.` are dropped, and `..` is the parent. |
| Includes.PathStartsWith | src/bin/nginx_config_mod/modify.rs:519 | Definition: `Path::starts_with`, a component-wise prefix. |
| Includes.IsAbsolute | src/bin/nginx_config_mod/modify.rs:441 | Definition: `Path::is_absolute` on Unix, a leading `/`. |
| Includes.Allowed | src/bin/nginx_config_mod/modify.rs:519 | Definition: some allowed prefix is a path prefix of the include. |
| Includes.FirstViolation | src/bin/nginx_config_mod/modify.rs:514-526 | Both directions: none exactly when every include is allowed. Otherwise it is the first disallowed include in `all_directives` order. |
| Includes.FirstViolationAt | src/bin/nginx_config_mod/modify.rs:514-526 | The disallowed include with none before it is the one reported. |
| Includes.CheckIncludes | src/bin/nginx_config_mod/modify.rs:514-526 | The loop with its `bail!` computes `IncludeCheck`. |
| Includes.IncludeCheckOk | src/bin/nginx_config_mod/modify.rs:514-526 | Both directions: the scan passes exactly when every include, at any depth, is covered by an allowed prefix. |
| Includes.EmptyAllowListRejects | src/bin/nginx_config_mod/modify.rs:519-521 | With no prefix allowed, any include fails with `InvalidInclude`. |
| Includes.NoIncludePasses | src/bin/nginx_config_mod/modify.rs:514-526 | A tree without includes passes any allow-list. |
| Includes.IncludeCheck | src/bin/nginx_config_mod/modify.rs:514-526 | Definition: `Ok` when no include in `all_directives` order is outside the allow-list, otherwise `InvalidInclude` of the first such include. |
| Includes.Violates | src/bin/nginx_config_mod/modify.rs:519-521 | Definition: an include whose path no allowed prefix covers. |
| Includes.ExpandErrPrefix | src/bin/nginx_config_mod/modify.rs:451-464 | The first error met, `?`-propagated, is the result of the whole expansion. |
| Includes.ExpandLocalIncludes | src/bin/nginx_config_mod/modify.rs:429-468 | The in-place, recursive method computes `Expand`. |
| Includes.ExpandAppend | src/bin/nginx_config_mod/modify.rs:436-466 | Expanding a concatenation is expanding each part and concatenating, with the first error winning. |
| Includes.ExpandSingle | src/bin/nginx_config_mod/modify.rs:436-466 | A one-directive list expands as that directive does. |
| Includes.IncludeSpliced | src/bin/nginx_config_mod/modify.rs:456-465 | A relative include is replaced by exactly the directives of the file it resolves to. Those are not expanded again. |
| Includes.IncludeUnreadable | src/bin/nginx_config_mod/modify.rs:462-463 | A failed read reports the resolved path and the read error. |
| Includes.ExpandNothing | src/bin/nginx_config_mod/modify.rs:429-468 | A tree without relative includes comes out as it went in: absolute includes are kept. |
| Includes.ExpandOneNothing | src/bin/nginx_config_mod/modify.rs:441-460 | The same for one directive and its descendants. |
| Includes.ExpandOneKeeps | src/bin/nginx_config_mod/modify.rs:449-460 | A non-include directive stays one directive at its position; a block has its children expanded. |
| Includes.Expand | src/bin/nginx_config_mod/modify.rs:429-468 | Definition: the list rebuilt directive by directive, with the first error winning. |
| Includes.ExpandOne | src/bin/nginx_config_mod/modify.rs:436-465 | Definition: a relative include becomes the directives of the file next to the configuration; an absolute one is kept; a block has its child list expanded. |
| Includes.Fragment | src/bin/nginx_config_mod/modify.rs:462-464 | Definition: reading the file and `parse_directives` of its text, each failure its own error. |
| Includes.RelativeInclude | src/bin/nginx_config_mod/modify.rs:438-448 | Definition: an include whose rendered path is not absolute. |
| ProxyCheck.CheckSelectedHostnames | src/checks/proxy_pass.rs:25-68 | The loop with its `continue`s gives `CheckResult`'s value, and the lookups the scan makes. |
| ProxyCheck.CheckHostnames | src/checks/proxy_pass.rs:19-23 | The same scan with a predicate that checks every domain. |
| ProxyCheck.ScanAppend | src/checks/proxy_pass.rs:31-63 | Errors and lookups come in directive order. |
| ProxyCheck.ScanErrorsEmpty | src/checks/proxy_pass.rs:31-63 | Both directions: no error is collected exactly when no directive yields one. The scan never stops early. |
| ProxyCheck.CheckResultOk | src/checks/proxy_pass.rs:64-67 | Both directions: `Ok` exactly when every directive at any depth is clean. Otherwise the error is every collected error, in order. |
| ProxyCheck.CheckResultOfScan | src/checks/proxy_pass.rs:64-67 | `Ok` exactly when the error list is empty. |
| ProxyCheck.CheckOneSpec | src/checks/proxy_pass.rs:32-61 | See the first note below the table. |
| ProxyCheck.ErrorsAtMostProxies | src/checks/proxy_pass.rs:31-63 | At most one error and one lookup per `proxy_pass`. |
| ProxyCheck.SkipAllNoLookup | src/checks/proxy_pass.rs:43-46 | A predicate that skips every domain makes the scan look nothing up. |
| ProxyCheck.CheckOne | src/checks/proxy_pass.rs:32-61 | Definition: the errors and lookups one directive contributes. |
| ProxyCheck.LookupPort | src/checks/proxy_pass.rs:47 | Definition: the URL's port, or 80. |
| ProxyCheck.Scan | src/checks/proxy_pass.rs:30-63 | Definition: the contributions of every directive, in `all_directives` order. |
| ProxyCheck.CheckResult | src/checks/proxy_pass.rs:25-68 | Definition: `Ok(())` when the scan collects no error, otherwise all the errors. |
| ConfigFile.WithDirectives | src/config.rs:67-74 | A write through `directives_mut()` keeps the entry point and sets the list `directives()` reads. |
| ConfigFile.DirectivesMutSame | src/config.rs:60-74 | `directives_mut` reaches what `directives` reads: writing back what was read changes nothing, and a second write overrides the first. |
| ConfigFile.AstDetermined | src/config.rs:24-29 | An `Ast` is determined by its entry point and its top-level list. |
| ConfigFile.ParseAst | src/config.rs:48-53 | A parsed `Ast` has the requested entry point; a failure is a `Syntax` error. |
| ConfigFile.ParseAstSpec | src/config.rs:48-53 | Both directions: `Main` succeeds exactly when `parse_main` does and keeps its tree. The block entry points succeed exactly when `parse_directives` does and keep its list. |
| ConfigFile.FragmentEntriesAgree | src/config.rs:50-52 | The three block entry points parse the same text the same way. |
| ConfigFile.Rendered | src/config.rs:85-87 | One printed directive per directive, in order. |
| ConfigFile.FragmentText | src/config.rs:82-90 | An empty fragment prints as nothing. A non-empty one, whose directives print on one line each, splits at newlines into exactly the printed directives. |
| ConfigFile.Config.constructor | src/config.rs:54-57 | A `Config` holds the given file name and tree. |
| ConfigFile.Config.SetDirectives | src/config.rs:67-74 | The new `ast` is the old one with the list replaced; the file name stays. |
| ConfigFile.Config.Render | src/config.rs:77-94 | The `fmt` loop prints `AstText`: the main tree by its own printer, a fragment as its directives joined by newlines. |
| ConfigFile.PartialFile | src/config.rs:38-58 | Both directions: succeeds exactly when reading and parsing do. A read failure is `Input` and no parse happens; a parse failure is `Syntax`. A new `Config` remembers the path. |
| ConfigFile.DirectivesOf | src/config.rs:60-66 | Definition: `directives()`, the top-level list of any entry point. |
| ConfigFile.EntryOf | src/config.rs:60-66 | Definition: the entry point an `Ast` was parsed for, the variant `directives()` matches on. |
| ConfigFile.Config.Directives | src/config.rs:60-66 | Definition: `directives()` of the `Config`'s tree. |
| ConfigFile.LoadAst | src/config.rs:44-53 | Definition: reading the file, then parsing its text for the entry point. |
| ConfigFile.AstText | src/config.rs:77-94 | Definition: the printed configuration. |
| Modify.ParseReplacementSpec | src/bin/nginx_config_mod/modify.rs:120-141 | See the second note below the table. |
| Modify.ParseReplacementNoEquals | src/bin/nginx_config_mod/modify.rs:121-131 | Without `=`: `EmptyDirectiveName` for the empty argument, otherwise `NoReplacement`. |
| Modify.ParseReplacement | src/bin/nginx_config_mod/modify.rs:120-141 | Definition: the split at the first `=`, and the parse of the text after it with `;` appended. |
| Modify.AfterWalk | src/bin/nginx_config_mod/modify.rs:223 | A walk of `directives_mut()` keeps the entry point. |
| Modify.StoredError | src/bin/nginx_config_mod/modify.rs:281-283 | Definition: the value `err` holds after the walk: the last error stored. |
| Modify.Checked | src/bin/nginx_config_mod/modify.rs:370-372 | Definition: a rule with an `err` accumulator: the walked tree, and `Err` of the stored error if there is one (also lines 281-283 and 410-413). |
| Modify.CheckedResult | src/bin/nginx_config_mod/modify.rs:390-413 | Both directions: a rule with an `err` accumulator returns `Ok` exactly when no directive's step fails. Otherwise it returns the last failing directive's error, after walking the whole tree. |
| Modify.RuleArgumentErrors | src/bin/nginx_config_mod/modify.rs:213-222 | A rule whose arguments fail returns that error and leaves the tree untouched. `server_names` and `if_regexes` succeed whenever their arguments parse. |
| Modify.ServerNamesRule | src/bin/nginx_config_mod/modify.rs:208-248 | Definition: the argument loop, then the walk over `server_name` items with the map's entries in the given order. |
| Modify.ProxyPassMappingRule | src/bin/nginx_config_mod/modify.rs:376-414 | Definition: the argument loop, then the walk over `proxy_pass` items, keeping the last error. |
| Modify.ProxyPassRegexesRule | src/bin/nginx_config_mod/modify.rs:250-285 | Definition: the regex argument loop, then the walk over `proxy_pass` items, keeping the last error. |
| Modify.IfRegexesRule | src/bin/nginx_config_mod/modify.rs:287-318 | Definition: the regex argument loop, then the walk over `if` conditions. |
| Modify.RewriteHostRegexesRule | src/bin/nginx_config_mod/modify.rs:320-374 | Definition: the regex argument loop, then the walk over `rewrite` items, keeping the last error. |
| Modify.ServerNames | src/bin/nginx_config_mod/modify.rs:208-248 | The rule on the `Config`: the new tree and the result are `ServerNamesRule` of the old tree, for the iteration order it returns; the file name stays. |
| Modify.ProxyPassMapping | src/bin/nginx_config_mod/modify.rs:376-414 | The same against `ProxyPassMappingRule`. |
| Modify.ProxyPassRegexes | src/bin/nginx_config_mod/modify.rs:250-285 | The same against `ProxyPassRegexesRule`. |
| Modify.IfRegexesOn | src/bin/nginx_config_mod/modify.rs:287-318 | The same against `IfRegexesRule`. |
| Modify.RewriteHostRegexesOn | src/bin/nginx_config_mod/modify.rs:320-374 | The same against `RewriteHostRegexesRule`. |
| Modify.FirstBadPattern | src/bin/nginx_config_mod/modify.rs:540-542 | Both directions: none exactly when every exclusion pattern compiles; otherwise the error of the first failing one. |
| Modify.CompilePatterns | src/bin/nginx_config_mod/modify.rs:540-542 | The `collect` loop computes `FirstBadPattern`. |
| Modify.HostCheckStage | src/bin/nginx_config_mod/modify.rs:538-551 | Definition: when asked, the exclusion patterns compile and the hostname check passes, or the run fails. |
| Modify.NotExcluded | src/bin/nginx_config_mod/modify.rs:543-545 | Definition: the predicate handed to the check: no exclusion pattern matches the domain. |
| Modify.PlainPipeline | src/bin/nginx_config_mod/modify.rs:470-556 | With nothing asked for, the run fails on a load error, or with the allow-list's error, and otherwise prints the loaded tree unchanged. |
| Modify.PlainPipelineIdentity | src/bin/nginx_config_mod/modify.rs:514-526 | Both directions: with nothing asked and nothing allowed, the run prints the file unchanged exactly when it holds no include at any depth. |
| Modify.MissingTargetStopsRun | src/bin/nginx_config_mod/modify.rs:496-498 | A server-name argument without `=` ends the run with that error, whatever comes after. |
| Modify.ListenStageList | src/bin/nginx_config_mod/modify.rs:487-494 | `--listen` keeps the length of `replace_listen`'s top-level list and which entries are `listen`; those entries are as `replace_listen` left them. |
| Modify.ListenStageNone | src/bin/nginx_config_mod/modify.rs:487-494 | On a top-level list without `listen` the stage keeps the length and adds none. |
| Modify.ListenStageSome | src/bin/nginx_config_mod/modify.rs:487-494 | Otherwise the supplied addresses stand in order from the first `listen`'s index, and no other top-level `listen` remains. |
| Modify.ExpandStage | src/bin/nginx_config_mod/modify.rs:473-475 | Definition: include expansion, only when asked. |
| Modify.ListenStage | src/bin/nginx_config_mod/modify.rs:487-494 | Definition: `replace_listen` on the top-level list, then in every block, only when addresses are given. |
| Modify.Prepared | src/bin/nginx_config_mod/modify.rs:471-494 | Definition: loading, expansion, variables and listens. |
| Modify.Mapped | src/bin/nginx_config_mod/modify.rs:496-502 | Definition: the two mapping rules, each only when given. |
| Modify.Regexed | src/bin/nginx_config_mod/modify.rs:504-512 | Definition: the three regex rules, each only when given, in that order. |
| Modify.RuleStage | src/bin/nginx_config_mod/modify.rs:496-512 | Definition: the `if len() > 0 { rule(..)?; }` guard: the tree as it is when the option is absent, the rule's error, or the rule's tree. |
| Modify.Rewritten | src/bin/nginx_config_mod/modify.rs:496-512 | Definition: the two mappings, then the three regex rules. |
| Modify.Finished | src/bin/nginx_config_mod/modify.rs:514-555 | Definition: the allow-list, the replacement by name, the hostname check and the printed text. |
| Modify.Pipeline | src/bin/nginx_config_mod/modify.rs:470-556 | Definition: the stages in order; the first error ends the run. |
| Modify.Prepare | src/bin/nginx_config_mod/modify.rs:471-494 | Loading, expansion, variables and listens on a new `Config` compute `Prepared`, with the same error. |
| Modify.MapRules | src/bin/nginx_config_mod/modify.rs:496-502 | The two host mappings on the `Config`, each only when given, compute `Mapped` for the iteration orders returned. |
| Modify.RegexRules | src/bin/nginx_config_mod/modify.rs:504-512 | The three regex rules, each only when given and in that order, compute `Regexed`. |
| Modify.Finish | src/bin/nginx_config_mod/modify.rs:514-555 | The allow-list, the replacement by name, the hostname check and the printing compute `Finished`. |
| Modify.Run | src/bin/nginx_config_mod/modify.rs:470-556 | `run` gives exactly `Pipeline` for the `HashMap` iteration orders it used. This is the loaded file through every stage in order, or the first stage's error. Whatever the orders, a failed load, expansion or preparation is the run's error, and a run that succeeds had a successful preparation. |

1. `ProxyCheck.CheckOneSpec` states what one directive contributes to the check:
   - nothing, unless it is a `proxy_pass`;
   - one `InvalidUrl` holding its text, when the URL does not parse;
   - nothing, for IP hosts and URLs without a host;
   - nothing, for a domain the predicate skips;
   - otherwise one lookup at the URL's port or at 80, and one `Resolve` error exactly
     when that lookup fails.
2. `Modify.ParseReplacementSpec` covers `name=text` where `name` has no `=`:
   - `EmptyDirectiveName` for an empty name;
   - `ReplacementSyntax` when `text;` does not parse;
   - `NoReplacement` when it holds no directive;
   - `MultipleReplacements` when it holds more than one;
   - otherwise exactly the pair of the name and the single item.

## Left out

- Parsing and printing of nginx syntax: `parse_main`, `parse_directives`, `Value`'s
  `FromStr` and the `Display` of `Main`, `Directive` and `Value`. These belong to the
  nginx_config crate, which is not part of this model; they are left abstract as
  fields of `Foreign.Env`. So is `parse_proxy` (lines 144-155). It runs `parse_directives` on
  `proxy_pass` plus the text, rejects more than one directive, and rejects an item that
  is not a `proxy_pass`. All of that sits inside the abstract `Env.parseProxy`.
- `visit_mutable` and `replace_vars` also come from nginx_config. They are modelled
  as a depth-first walk: first the item, then the child list the closure leaves
  (`Visit.Walk`). This is taken to be how the crate works, since its source is not
  part of this model.
- `Config::all_directives` is not defined in the source of this model. It is modelled
  as the pre-order listing of the tree (`Tree.AllDirectives`).
- Regex matching, replacement and compilation are abstract `Env` functions. No regex
  semantics is modelled. "First match only" is stated by the name and not proved.
- URL parsing (`Url::parse`) and name resolution (`to_socket_addrs`) are abstract
  `Env` functions. Nothing is looked up; the lookups a scan would make are returned
  instead.
- File reading (`File::open`, `read_to_string`) and `Path::parent().join` are
  abstract `Env` functions. The case of a file path without a parent, on which
  the program panics, is not modelled.
- The `HashMap` iteration order is not fixed. The model quantifies over every order
  (a ghost out-parameter), rather than naming the one the standard library picks.
- Modify.Run: requires that no directive strictly inside a `--replace-by-name`
  replacement item has the name of one of the rules (`Visit.Admissible`).
  `visit_mutable` walks into the copy it has just put in place. With such a directive
  the source replaces again inside each copy. For `location=location / { location /a {} }`
  it never returns. The source also ends on some inputs the requirement excludes,
  such as `location=location / { return 1; }` together with `return=return 2`, where
  the nested replacement has no child list. The model does not cover those.
- Modify.Finish: the same requirement, for the same reason.
- Modify.Finished: the same requirement, for the same reason.
- Modify.Pipeline: the same requirement, for the same reason.
- Modify.MissingTargetStopsRun: the same requirement, for the same reason.
- Includes.ExpandLocalIncludes: on an error, the source leaves `dest` partly rebuilt,
  but `run` then stops. The model returns the error and no partial list.
- ProxyCheck.CheckSelectedHostnames: `do_check` is an `FnMut` in the source. The model
  takes it as a pure predicate, which is what `run` passes.
- The command line (StructOpt, `main.rs`), `parse_listen` (lines 108-118) and the
  `validate` command (`validate.rs`) are outside the engine. `--listen` and
  `--replace-by-name` arrive as parsed values, but `Modify.ParseReplacement` models
  how the second is parsed.
- Logging of each hostname error (`error!`, lines 547-549) is left out. The run's
  error is `HostnamesUnresolved`.
- Error texts, `context(...)` wrappers and the `From` conversions of `errors.rs` are
  reduced to the error constructors of `Errors`.
- Strings are sequences of characters. Byte offsets, UTF-8 and Windows path syntax are
  not modelled; paths are Unix paths.
