# cmdex alias manager — a Dafny model

`cmdex` is a small command-line tool that stores short aliases for shell
commands and runs them later with arguments substituted in. The
subcommands are:

- `save <alias> <command...>`: stores the command words joined by single spaces.
- `edit <alias> <new_command...>`: does the same, but only for an alias already stored.
- `list`: prints the stored pairs.
- `run <alias> [args...]`: runs an alias. When the CLI framework passes
  arguments to the root command's handler, that handler resolves them as
  `run` does.

A run looks the alias up, replaces `$1`, `$2`, … by the arguments in
ascending order (literal `strings.ReplaceAll`), splits the result on white
space (`strings.Fields`), and executes the first field with the rest as its
argument vector.

The model has four modules, one file each:

- `text.dfy` (`Text`): the Go library functions the tool relies on. These are
  `strings.Join`, `strings.ReplaceAll`, `strings.Fields` and
  `unicode.IsSpace`, on strings of Unicode code points.
- `placeholders.dfy` (`Placeholders`): the placeholder `$i` and the
  ascending substitution fold `SubstituteAll`. It also proves what
  substitution means for templates built from text and placeholders (`Piece`,
  `Expand`), and states the two consequences of the literal algorithm.
  First, `$1` rewrites the front of `$10`. Second, an argument that is a
  later placeholder is substituted again.
- `resolution.dfy` (`Resolution`): the outcome of a run as a value
  (`NotFound | EmptyCommand | Exec(program, argv)`) and the function
  `Resolve` that specifies it, with its lemmas.
- `commands.dfy` (`Commands`): the store as a class `AliasStore`. Its map
  field `entries` is the `commands` bucket. The `save` and `edit` handlers
  update it in place. `RunCommand` is the imperative placeholder loop of
  `runCommand`, proved equal to `Resolve`. `Root` is the root command's
  handler. `Scenarios` is a client that derives the
  documented examples from the contracts alone.

The storage engine refuses an empty key: its `Put` fails with "key
required". The source does not check for an empty alias itself, so
`save "" …` reports a storage error. The model keeps this as
`Failed(KeyRequired)`, and `AliasStore.Valid()` records that no empty alias
is ever stored.

## Model

| member | source | states |
|---|---|---|
| `Text.IsSpace` | main.go:154 | `unicode.IsSpace`, the separator test of `strings.Fields`: the Latin-1 spaces (tab, newline, vertical tab, form feed, carriage return, space, U+0085, U+00A0) and the other Unicode White_Space code points (U+1680, U+2000 to U+200A, U+2028, U+2029, U+202F, U+205F, U+3000) |
| `Text.Join` | main.go:63 | `strings.Join`, also called at main.go:103: no parts give the empty string, one part gives itself, and otherwise the parts follow one another with the separator between consecutive ones |
| `Text.ReplaceAll` | main.go:150 | `strings.ReplaceAll`: a left-to-right scan that replaces every leftmost, non-overlapping occurrence of the pattern and resumes after each match; an empty pattern inserts the replacement before every character and at the end; a string shorter than a non-empty pattern is returned unchanged |
| `Text.Fields` | main.go:154 | every field is non-empty and contains no white space |
| `Text.FieldsEmpty` | main.go:154-155 | there are no fields exactly when the string is empty or all white space (both directions) |
| `Text.FieldsAfterSpace` | main.go:154 | leading white space does not change the fields |
| `Text.FieldsOfWord` | main.go:154 | a word followed by white space (or by nothing) is the first field, and the rest is split on its own |
| `Text.FieldsKeepText` | main.go:154 | the fields, concatenated, are exactly the non-space characters of the string, in order |
| `Text.FieldsOfJoin` | main.go:63 | round trip: words joined with a white-space separator split back into the same words |
| `Text.JoinAvoids` | main.go:63 | a character absent from every part and from the separator is absent from the joined string |
| `Text.ReplaceAllAbsent` | main.go:150 | if the pattern does not occur in the string, the string is returned unchanged |
| `Text.ReplaceAllSelf` | main.go:150 | replacing a pattern by itself is the identity |
| `Text.ReplaceAllSkip` | main.go:150 | a prefix without the pattern's first character is copied unchanged, and the scan continues after it |
| `Text.ReplaceAllHead` | main.go:150 | a string starting with the pattern gets the replacement in front, and the scan resumes after the match, so matches do not overlap |
| `Text.ReplaceAllMissingHead` | main.go:150 | a string without the pattern's first character is unchanged |
| `Placeholders.Placeholder` | main.go:149 | the pattern for the argument at position `i` (counting from 1), `fmt.Sprintf("$%d", i)`: `$` followed by the decimal form of `i` |
| `Placeholders.SubstituteAll` | main.go:148-151 | the loop over the arguments: after the passes for positions 1 to n in ascending order, where pass `i` replaces every `$i` by argument `i` in the result of the passes before it |
| `Placeholders.Decimal` | main.go:149 | `%d` of a non-negative number is a non-empty string of digits without a leading zero |
| `Placeholders.DecimalRoundTrip` | main.go:149 | reading the printed digits back gives the number |
| `Placeholders.PlaceholderInjective` | main.go:149 | distinct positions have distinct placeholders |
| `Placeholders.SingleDigitPlaceholder` | main.go:149 | positions below ten have a two-character placeholder `$d` |
| `Placeholders.PlaceholderPrefix` | main.go:149 | the placeholder of position `10i+d` is the placeholder of `i` followed by digit `d` (`$1` is a prefix of `$10`) |
| `Placeholders.LongerPlaceholderRewritten` | main.go:148-151 | the pass for position `i` turns the placeholder of `10i+d` into the argument followed by `d` |
| `Placeholders.SubstituteNoArguments` | main.go:148-151 | with no arguments the template is unchanged |
| `Placeholders.SubstituteWithoutDollar` | main.go:148-151 | a template without `$` is never changed, whatever the arguments |
| `Placeholders.PlaceholderShape` | main.go:149 | the placeholder of a position (1 or more) is `$` followed by a digit from 1 to 9, then possibly more digits |
| `Placeholders.ReplaceAllSkipInert` | main.go:150 | inert text, where every `$` is followed by a character other than the digits 1 to 9, is copied unchanged by the pass of any position |
| `Placeholders.SubstituteStep` | main.go:148-151 | for inert literal text, placeholders `$1`..`$9` and inert earlier arguments: one pass replaces exactly the holes of the next position by its argument |
| `Placeholders.SubstituteExpand` | main.go:148-151 | for templates of inert text (every `$` followed by a character other than the digits 1 to 9, so `$HOME` and `$0` are text) and placeholders `$1`..`$9`, and inert arguments: each placeholder that has an argument is replaced by it, the others stay literally, and all other text is kept |
| `Placeholders.OtherDollarsKept` | main.go:148-151 | "ls $HOME $1 $2" with "x" becomes "ls $HOME x $2": a `$` that starts no placeholder is kept, and so is a placeholder without an argument |
| `Placeholders.ZeroKept` | main.go:148-151 | "echo $0 $1" with "a" becomes "echo $0 a": `$0` is never substituted, since no position prints as `0` |
| `Placeholders.PrefixQuirk` | main.go:148-151 | "echo $10" with argument "a" becomes "echo a0" |
| `Placeholders.ResubstitutionQuirk` | main.go:148-151 | "echo $1" with arguments "$2", "b" becomes "echo b": the first argument is substituted again by the later pass |
| `Resolution.Resolve` | main.go:131-161 | the outcome is not-found exactly when the alias is not stored; an executed program and each of its arguments are non-empty and free of white space |
| `Resolution.ResolveEmpty` | main.go:154-158 | "Empty command" exactly when the alias is stored and its substituted template is empty or all white space |
| `Resolution.ResolveExecKeepsText` | main.go:154-161 | program and argv together hold exactly the non-space characters of the substituted template, in order |
| `Resolution.ResolveSavedWords` | main.go:131-161 | a template saved from words without white space or `$` executes its first word with the others as argv, for any arguments |
| `Resolution.ResolveTemplate` | main.go:147-161 | a well-formed template (inert text, placeholders `$1`..`$9`) run with inert arguments executes the fields of the template with the supplied placeholders filled in, or is empty when those fields are empty |
| `Resolution.EchoBothArguments` | main.go:147-161 | "echo $1 $2" with "a", "b" executes `echo` with argv `["a","b"]` |
| `Resolution.EchoMissingArgument` | main.go:147-161 | "echo $1 $2" with "a" executes `echo` with argv `["a","$2"]` |
| `Commands.AliasStore.Open` | main.go:18-27 | the store opens holding exactly the aliases saved by earlier invocations (an empty bucket on the first run), none of them empty |
| `Commands.AliasStore.Put` | main.go:64-67 | the empty alias fails with KeyRequired and changes nothing; any other alias is inserted or overwritten, and no other key changes |
| `Commands.AliasStore.Save` | main.go:61-73 | stores the words after the alias joined by single spaces, overwriting an existing entry, and leaves every other alias as it was; the empty alias fails and changes nothing |
| `Commands.AliasStore.Edit` | main.go:101-116 | an absent alias fails with AliasNotFound and nothing is created; a present one gets the space-joined new command, and no other alias changes |
| `Commands.AliasStore.List` | main.go:81-92 | the listed pairs are exactly the stored alias/template pairs |
| `Commands.AliasStore.RunCommand` | main.go:131-161 | the lookup, the ascending placeholder loop and the field split yield exactly `Resolve` of the current store |
| `Commands.AliasStore.Run` | main.go:125-127 | `run <alias> args…` resolves the alias with the remaining arguments |
| `Commands.AliasStore.Root` | main.go:36-42 | when the CLI framework passes arguments to the root handler, it resolves them as `run` does; without arguments, it shows help |

## Left out

- The storage engine is replaced by an in-memory map. Left out with it: durability, transactions, file locking, and the fatal exit when the store cannot be opened or the bucket cannot be created (main.go:18-30). `Open` takes the saved aliases as its argument. These belong to an external library and to I/O.
- Commands.AliasStore.Put: the only storage failure modelled is the refused empty key. The size limits on keys and values, and disk or transaction failures, are left out.
- The order in which `list` prints is the storage engine's key order, which the code does not control. `List` gives the set of pairs.
- Argument parsing belongs to the CLI framework and is left out. That covers help and usage text, and the routing that decides which handler receives the arguments. The minimum-arity checks become `requires` clauses: two arguments for `save` and `edit`, one for `run`.
- Commands.AliasStore.Root: models the root handler's body (main.go:36-42) only once it is reached. Whether a bare `<alias> args...` reaches it is up to the framework's routing. For a root command that has subcommands and no argument validator, the framework's default legacy argument check reports an unknown command. main.go:50-52 then exits with status 1, so the bare form may never reach the handler as written. The framework's code is not part of this model.
- Process spawning, stream forwarding and the "Error executing command" report (main.go:161-169) are left out. The model stops at `Exec(program, argv)`.
- Printed messages and exit codes are left out. Outcomes are the values `Status`, `Outcome` and `RootAction`.
- Strings are sequences of Unicode code points. The source works on UTF-8 bytes, and invalid UTF-8 is not modelled. The placeholder patterns are ASCII, so matching on bytes and on code points finds the same occurrences.
- Placeholders.SubstituteExpand: the meaning of substitution is proved only for placeholders `$1` to `$9`, and for literal text and arguments that are inert: every `$` in them is followed, inside the same text, by a character other than the digits 1 to 9. Text like `$HOME`, `$NF` or `$0` is inert (see `OtherDollarsKept` and `ZeroKept`). A `$` followed by a digit from 1 to 9, or a trailing `$`, is not, because a pass can match it. With a longer placeholder, or with text that is not inert, the literal algorithm can deviate, as `PrefixQuirk` and `ResubstitutionQuirk` show.
- Placeholders.SubstituteStep: holds under the same limits as `SubstituteExpand` (inert literal text, placeholders `$1` to `$9`, inert earlier arguments).
- Resolution.ResolveTemplate: inherits the limits of `SubstituteExpand`.
