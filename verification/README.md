# Mock freshness validator, modelled in Dafny

The validator checks that committed generated mocks are still what their
generation command produces. It walks the project tree and files every entry
by its base name into two indices: project sources (non-directories whose
name contains `.go` but not `_test`) and mocks (names containing
`_mock.go`). For each mock it takes the name before the first `_mock.go`,
appends `.go`, and looks that up among the project sources. It opens the
original and reads it line by line. Every line that mentions `mockgen` is cut
at each single space into tokens. Tokens 0 and 1 (the comment marker and the
tool name) are dropped, token 3 becomes `-destination=./scripts/temp/<original>`,
and the other tokens are passed to `mockgen` unchanged. The generator is run,
then the committed mock and the fresh output are compared by digest. Every
problem goes into an append-only error log. The program fails, printing the
log, exactly when the log is non-empty.

The model is functional. The log is a `seq<string>` threaded through every
step. The walk is a sequence of `(path, name, isDir)` entries. Everything
the program observes from outside — file contents, generator runs, opening
and hashing files — comes from an `Environment` value of total functions
(`validator.dfy`).

Details the model fixes, each as the code does it:
- A line is split on the single character `' '` (script/main.go:146).
- Tokens 0 and 1 (`//` and `mockgen` in a conventional comment) are dropped
  (script/main.go:155-156).
- The scratch path is `./scripts/temp/` followed by the name the original
  file was opened under (script/main.go:115). That name is its walk path,
  for example `example/service_example.go`.
- The messages are the code's own, for example
  `Failed to read mockgen command from original file …` when the generator
  fails (script/main.go:126).
- The walk starts at the fixed root `./` (script/main.go:72).

Modules: `Wrappers` (option/result), `Strings` (substring search, the first
piece of a split, single-character split and join), `ErrorLog`, `Command`
(the rewriter), `Scanner` (classification), `Pairing` (original-name lookup)
and `Validator` (comparison, per-line and per-mock validation, top level).

## Model

| member | source | states |
|---|---|---|
| Strings.Index | script/main.go:113 | the search finds a position exactly when the pattern occurs, at its leftmost occurrence (the literal pattern `mockgen` has no metacharacters, so the regexp match is substring containment) |
| Strings.PrefixBefore | script/main.go:170 | for a non-empty separator, the result is a prefix of the name; if the separator occurs, it starts right after the result and nowhere earlier; if it does not occur, the result is the whole name |
| Strings.Split | script/main.go:146 | splitting on one character gives one more piece than the character's number of occurrences, and no piece contains the character |
| Strings.JoinSplit | script/main.go:146 | joining the pieces with the separator gives back the line |
| Strings.SplitJoin | script/main.go:146 | splitting a join of separator-free pieces gives back the pieces, so tokenising loses nothing |
| ErrorLog.Formatted | script/main.go:31-34 | an entry starts with its message; the ` with error <text>` suffix is there exactly when an error is supplied |
| ErrorLog.Append | script/main.go:31-37 | the log grows by exactly one entry and all earlier entries are unchanged |
| ErrorLog.AppendEachConcatenates | script/main.go:110-133 | handling items in order appends what each item contributes on its own, whatever was logged before |
| ErrorLog.ConcatAppend | script/main.go:110-133 | the messages of two runs of lines are those of the first run followed by those of the second |
| ErrorLog.ConcatEmptyIff | script/main.go:110-133 | a run of items adds nothing iff none of them has anything to say |
| ErrorLog.ConcatSingle | script/main.go:110-133 | among items that say nothing, the one remaining item's messages are all that is appended |
| Command.RewriteUpTo | script/main.go:153-162 | after the first n tokens the argument list has n-2 entries; entry j is token j+2, except that token 3 becomes the destination flag |
| Command.RewriteArgs | script/main.go:153-162 | with n >= 3 tokens: n-2 arguments; token 2 first; `-destination=`+path in place of token 3; every token from 4 on unchanged and in order; exactly 3 tokens give `[token 2]` and no destination |
| Command.BuildCommand | script/main.go:143-167 | a line of fewer than 3 space-separated tokens (fewer than two spaces) is rejected with the `Invalid mockgen generating command …` error naming the line and the file; otherwise `mockgen` is invoked with the rewritten arguments |
| Command.RewriteChangesOnlyDestination | script/main.go:153-162 | putting tokens 0, 1 and the old token 3 back restores the tokenised line: only the destination changes |
| Command.BuildFromTokens | script/main.go:146-164 | a line that is a space-joined list of space-free tokens is invoked with exactly those tokens rewritten |
| Command.ConventionalComment | script/main.go:52-53 | a comment `// mockgen <source> <destination> [flags…]` gives arguments `<source> -destination=<scratch> [flags…]` |
| Scanner.Scan | script/main.go:71-81 | a name is in the project index iff some visited entry of that name is a non-directory whose name contains `.go` and not `_test`; it is in the mock index iff some entry of that name contains `_mock.go`; each key maps to the path and name of the LAST such entry |
| Scanner.InsertKeepsFaithful | script/main.go:73-78 | visiting one more entry keeps each index keyed by the last selected entry of each name |
| Scanner.MockNameIsGoName | script/main.go:73-76 | every mock name also contains `.go` |
| Scanner.NonTestMockInBoth | script/main.go:73-78 | a non-directory, non-test mock lands in both indices, whatever entries come after it |
| Scanner.LastMockMapsToItself | script/main.go:73-78 | when such a mock is the last entry of its name, both indices map the name to its own path and name |
| Pairing.OriginalName | script/main.go:170-172 | the derived name ends in `.go`; before that is the mock name up to its first `_mock.go`; a name without `_mock.go` maps to itself plus `.go` |
| Pairing.GetOriginalFile | script/main.go:169-185 | a derived name absent from the project index gives the `Did not find original file for mock <name> this mock might be stale.` error; otherwise the indexed path is opened, and the file or the open error is returned |
| Pairing.ServiceExampleOriginal | script/main.go:170-172 | `service_example_mock.go` is paired with `service_example.go` |
| Validator.CompareDigests | script/main.go:187-230 | at most one entry is appended: the first failure among opening the committed mock, opening the fresh file, hashing each; with all of them fine, exactly one `Mock file <name> should be regenerated` entry iff the digests differ, and nothing iff they are equal |
| Validator.LineEntries | script/main.go:111-132 | a line contributes at most one message: none when it does not mention `mockgen`; the `Invalid mockgen generating command` build error when it has fewer than 3 tokens; the run error when the generator fails on the rewritten invocation; otherwise the outcome of the comparison for that invocation |
| Validator.ScanLines | script/main.go:110-133 | scanning the lines appends each line's own contribution in line order, and nothing when no line mentions `mockgen` |
| Validator.ValidateMock | script/main.go:98-140 | only appends; an unindexed original gives exactly one entry naming the mock and saying it might be stale; an open failure gives exactly one entry; no `mockgen` line gives exactly one `Failed to get mockgen generating command from original file <path>` entry with no error suffix; otherwise the lines' contributions in order |
| Validator.SingleCommandVerdict | script/main.go:108-139 | a file with one command line whose run and comparison succeed makes its mock contribute exactly one `should be regenerated` entry when the digests differ and none when they are equal |
| Validator.OnlyCommandLineCounts | script/main.go:110-133 | lines that do not mention `mockgen` around a single command line contribute nothing |
| Validator.ValidateMockAppends | script/main.go:98-140 | what a mock appends does not depend on what was logged before |
| Validator.ValidateFiles | script/main.go:95-141 | the pass appends, in visiting order, what each mock contributes on its own |
| Validator.ValidateFilesSilentIff | script/main.go:98-140 | the pass appends nothing iff no mock in the visiting order contributes a message |
| Validator.ValidateAllSilentIff | script/main.go:98 | over any enumeration of the mock index, the pass appends nothing iff no mock of the index contributes a message |
| Validator.Conclude | script/main.go:56-69 | a walk error (a branch the source never reaches, see "## Left out") gives exactly one entry, `Failed to extract files … with error <text>`, and validation is skipped; otherwise the failure messages are exactly the validation's; a failing verdict always carries a message |
| Validator.ConcludePassesIff | script/main.go:47-49 | the program passes iff the walk succeeded and no mock contributes a message |
| Validator.Run | script/main.go:56-86 | the whole program fails with the single walk message when the walk errs (unreachable in the source, see "## Left out"), and only ever fails with a non-empty log |
| Validator.RunVerdictIndependentOfOrder | script/main.go:98 | whether the program passes does not depend on the order the mock map is iterated in |

## Left out

- The directory walk (`filepath.Walk`) is not modelled. Its visited entries and its returned error are inputs. The callback's own `err` argument is ignored by the source. The source would crash on the nil file information such a call can carry; that case is not modelled.
- `walkError` is `None` in every real run. The walk callback always returns nil (script/main.go:80), and `filepath.Walk` returns only what the callback returns, so the `Failed to extract files …` entry (script/main.go:83-85) is never reached. The walk-error branch of `Conclude` and `Run` models only the text of those lines. On a real traversal failure the source either panics on the nil file information at script/main.go:73 (root or entry that cannot be lstat'ed), or, for an unreadable directory, ignores the error and skips that subtree silently; neither is modelled.
- Go strings are byte sequences while Dafny's `string` is a sequence of characters. Every search and split here uses an ASCII needle or separator (`mockgen`, `_mock.go`, `.go`, `_test`, `' '`), so the two views agree on where matches fall.
- `os.Open` and `bufio.Scanner` are not modelled; file contents are given as a sequence of lines. Dropping line terminators, the scanner's line-length limit and its read errors (which the source never checks) are therefore not modelled.
- Running `mockgen` (`exec.Command(...).Output()`) is not modelled. Its outcome for each invocation is an input. The generator is taken to be deterministic, so what it writes is keyed by the invocation.
- SHA-256 and `io.Copy` in `hashFile` are not modelled. Digests are opaque byte sequences compared for equality, and nothing is claimed about equal digests meaning equal contents.
- The deferred `Close` calls and the deferred removal of the scratch file are not modelled. The model assumes no file-descriptor exhaustion, so each mock's observations do not depend on earlier mocks. In the source every opened original stays open until `validateFiles` returns (script/main.go:106), so many earlier mocks could make a later `os.Open` fail. The removal is also skipped when the committed mock fails to open (script/main.go:188-192, 203), which leaves the scratch file behind.
- `print` and `log.Fatal` are not modelled. The `Failed` verdict stands for printing every message and exiting with a failing status.
- Go's randomised map iteration order is not modelled. The order is an input listing every mock name once, and results that do not depend on it are proved.
- The `PROJECT_PATH` override used by the test is not modelled: `script/main.go` hard-codes the root `./`.
- The fixture counts asserted by `scripts/mockgen_validator_test.go` are not modelled, because they depend on the real directory tree.
