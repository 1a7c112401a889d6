# Legacy-script migration, modelled in Dafny

The `migrate` command of the module CLI turns a legacy single-file module
script into the structured layout. It parses the script and walks its
top-level statements in order. For each named function declaration it does
the following:

- it drops a name it has already migrated (the first declaration wins);
- it files the name under the API group if it is one of the six hook names
  (`searchResults`, `extractDetails`, `extractEpisodes`, `extractStreamUrl`,
  `extractChapters`, `extractImages`), and under the utility group otherwise;
- it writes the declaration's exact source text, with `export ` inserted, to
  `src/<lowercased name>.js` for the API group or to
  `src/utils/<lowercased name>.js` for the utility group.

A run that migrates nothing fails. Otherwise the command writes
`src/utils/index.js`, but only when there are utilities, and then always
writes `src/index.js`. Both files re-export the migrated names in the order
they were first seen.

The project has four modules:

- `Wrappers` (`wrappers.dfy`): the `Option` type.
- `JsStrings` (`js_strings.dfy`): the JavaScript built-ins the script relies
  on, over `seq<char>`. These are `startsWith`, `indexOf`, `replace` with a
  string pattern (first occurrence only), `slice` with its clamping,
  `toLowerCase` and `Array.prototype.join`.
- `FileSystem` (`file_system.dfy`): a `Disk` class standing in for Node's
  `fs`. It holds a map from path to contents and a set of directories.
  `WriteFile` and `MakeDirRecursive` update them in place.
- `Migrate` (`migrate.dfy`): the command itself, in two layers.
  - The imperative layer: `Migrate`, `ExtractFunctions` (the loop over the
    statements) and `WriteIndexes`. Each works on a `Disk`.
  - The functional specification that those methods are proved equal to.
    `Step` is one pass of the loop body, `Extract` the whole loop and
    `Indexed` the index writes. Lemmas prove what the command promises about
    that specification.

## Model

| member | source | states |
|---|---|---|
| `Migrate.Migrate` | commands/migrate.js:44-117 | A syntax error ends the run as `ParseFailed` with the parser's message, and the disk is untouched. Otherwise `src/utils` (with `src`) is created first, whatever happens next. Then the statements are extracted. A run that migrated nothing ends as `NoFunctionsMigrated`, and the files written so far stay. A run that migrated something writes the index files and ends as `Migrated` with the sizes of the two name sets. |
| `Migrate.ExtractFunctions` | commands/migrate.js:60-91 | The loop over the statements leaves the two name sets, the counter and the disk exactly as the specification `Extract` gives them, and creates no directory. |
| `Migrate.WriteIndexes` | commands/migrate.js:100-117 | Afterwards the disk is `Indexed(old disk, api, utils)`. The utility index is written only when there are utilities, and the module index is written last. |
| `Migrate.ExtractRegistry` | commands/migrate.js:63-90 | After the loop the two name sets hold no name twice and share no name. Their sizes add up to the counter. The API set holds exactly the declared names that are hooks, and the utility set exactly the declared names that are not. |
| `Migrate.ExtractOrder` | commands/migrate.js:65-88 | Within each set, names appear in the order of their first declaration in the script, whatever the interleaving of the two groups. |
| `Migrate.SkippedStatementsChangeNothing` | commands/migrate.js:65-69 | Statements that are not function declarations, and declarations without a name or with an empty name, change nothing. Running the loop on the named declarations alone gives the same sets, counter and disk. |
| `Migrate.DuplicateChangesNothing` | commands/migrate.js:71-74 | A declaration whose name was already declared changes neither the sets, the counter nor the disk. |
| `Migrate.ZeroMigrated` | commands/migrate.js:63-96 | The counter is zero exactly when the script declares no named function. In that case the loop wrote no file. |
| `Migrate.ExtractWritesEveryName` | commands/migrate.js:81-85 | After the loop, every declared name has its file (`OutPath`) on disk. |
| `Migrate.ExtractLeavesOtherPaths` | commands/migrate.js:81-85 | A path that is no declared name's `OutPath` keeps its previous contents, or stays absent. |
| `Migrate.ExtractedFileContents` | commands/migrate.js:76-85 | The file of a migrated declaration holds its rewritten source slice followed by `"\n"`. This holds unless a later migrated declaration has a name that lowercases to the same path; then the later write wins. |
| `Migrate.ApiPathOutsideUtils` | commands/migrate.js:81-83 | An API function is written to `src/<lowercased name>.js` and never under `src/utils/`. |
| `Migrate.NoUtilitiesNoUtilIndex` | commands/migrate.js:81-107 | When no utility was migrated, the loop neither creates nor changes `src/utils/index.js`. |
| `Migrate.Rewrite` | commands/migrate.js:76-79 | If the slice starts with `async function` or with `function`, the exported text is `export ` followed by the slice. Otherwise `export ` is inserted in front of the first `function`, or the slice is kept as it is when there is none. The rest of the slice is unchanged. |
| `Migrate.RewriteSpacedAsync` | commands/migrate.js:77-79 | If an async declaration has two or more spaces between `async` and `function`, its slice does not start with `async function`. The marker then lands after `async`: the text becomes `async  export function …`. |
| `Migrate.IndexFiles` | commands/migrate.js:100-117 | The module index is one export line per API name, each ending in a newline. It is followed by `export * from "./utils/index.js";` and a newline when there are utilities, and by one more newline when there are none. The utility index is one export line per utility name, each ending in a newline. With no utilities, `src/index.js` is the only file that changes. |
| `Migrate.UtilDirAncestry` | commands/migrate.js:39-58 | Creating `src/utils` recursively creates exactly `src` and `src/utils`. |
| `FileSystem.Disk.WriteFile` | commands/migrate.js:85 | Writing a file sets that one path's contents. No other file and no directory changes. |
| `FileSystem.Disk.MakeDirRecursive` | commands/migrate.js:58 | The directory and every parent directory on its path exist afterwards. No file changes. |
| `FileSystem.Ancestry` | commands/migrate.js:58 | The directories made by a recursive `mkdir` are the path itself and its proper "/"-prefixes. |
| `JsStrings.IndexOf` | commands/migrate.js:77-79 | The offset it returns is an occurrence of the pattern with no earlier occurrence. `None` means the pattern occurs nowhere. |
| `JsStrings.Slice` | commands/migrate.js:76 | Offsets within range give exactly the text between them. An end at or before the start gives the empty string. |
| `JsStrings.Lower` | commands/migrate.js:83 | The result has the same length as the input and no upper-case ASCII letter. Each upper-case ASCII letter becomes its lower-case partner (code point plus 32), and every other character is kept. |
| `JsStrings.LowerCollision` | commands/migrate.js:83 | Two names lower to the same text exactly when they have the same length and differ at most in the case of ASCII letters. Two such names in the same group therefore get the same file. |
| `JsStrings.JoinThenNewline` | commands/migrate.js:103-105 | Joining one or more lines with `"\n"` and adding `"\n"` ends every line with a newline. |

## Left out

- Parsing (commands/migrate.js:44-54) is done by the `acorn` library, which
  is not part of this model. A run receives the parser's result as a
  `ParseResult`. That is either the diagnostic or the top-level statements,
  each with the source offsets the parser reports.
- Source offsets count Dafny characters, which are Unicode code points. The
  parser and `String.prototype.slice` count UTF-16 code units. The two agree
  only for scripts with no character outside the Basic Multilingual Plane
  (an emoji, say). For other scripts the offsets are taken as already
  converted to code points.
- The command-line plumbing is not modelled: reading the argument, the
  usage error, the file-existence check and reading the file
  (commands/migrate.js:13-27, 42). The script text is a parameter.
- Console output, colours and timing (commands/migrate.js:6-11, 56, 72, 94,
  98, 119-122) carry no logic. The exit status is the `Outcome`.
- `path.resolve` and `path.join` become plain concatenation of paths relative
  to the working directory. Migrated names are identifiers, so they contain
  no `/` or `..` for `path.join` to normalise.
- Failures of the disk itself (permissions, a full disk) are not modelled.
  Every write and `mkdir` succeeds.
- `JsStrings.Lower`: only the ASCII letters are lowered. JavaScript's
  `toLowerCase` also maps other Unicode letters.
- `JsStrings.ReplaceFirst`: `$` patterns in the replacement string are not
  interpreted. Both replacements the command uses are constants without `$`.
- A declaration's async and generator flags are not part of `Node`. The
  rewrite only looks at the source text.
- `commands/create.js`, `commands/build.js` and `cli.js` are the interactive
  scaffolder, the bundler wrapper and the argument dispatch. They are not
  part of this model.

Two consequences of the code are kept as written:

- A script with no function declarations still leaves `src` and
  `src/utils` created on disk. Creating the directory comes before the loop.
- An empty module index is never written. A run with no migrated function
  stops before the index files.
- Two migrated names that differ only in ASCII case are written to the same
  file, and the later one wins (`ExtractedFileContents`, `LowerCollision`).
- A utility whose name lowers to `index` is written to `src/utils/index.js`.
  The utility index written afterwards replaces it (`IndexFiles`).
