# kubectl output interpretation, in Dafny

A model of the output-interpretation layer of the kubectl-output-parser
library. The layer takes the result of running kubectl (`KubectlOutput`) and
turns it into an `Errorable<T>`. `KubectlOutput` is either "the process could
not be created" or a shell result `{code, stdout, stderr}`. `Errorable<T>` is
either `Succeeded(result)` or `Failed(reason, error)`.

- `errorable.dfy` (module `Errorable`) holds the result type `Errorable`, its
  three-valued `Reason` and the `succeeded` / `failed` guards. The repository
  declares them twice (ts/src/errorable.ts:5-44 and the older
  ts/errorable.ts:1-12). One set of definitions models both.
- `kubectl.dfy` (module `Kubectl`) holds the input types `ShellResult` and
  `KubectlOutput` (ts/src/index.ts:4-14) and the dictionary type
  (ts/src/dictionary.ts:6-16). It also holds `Completion`, which stands for a JavaScript call that
  either returns or throws, and `DescribesFailure`, the convention every
  failure follows.
- `text.dfy` (module `Text`) holds the string primitives the decoders rely
  on, as pure functions with their shape lemmas:
  - the regex class `\s` (`IsWhitespace`), used by the column separator
    (ts/src/table.ts:5) and by `trim`;
  - `trim`;
  - `split` on one character, and its inverse `Join`;
  - `replace(/\s+/g, '|')`, modelled as collapsing each maximal run of
    whitespace into one `'|'`;
  - ASCII lower-casing.
- `table.dfy` (module `Table`) is the tabular decoder. Its record
  `TableLines` (ts/src/table.ts:10-13) is the header line and the body lines.
  Two parts are
  imperative methods, each proved equal to a specification function:
  - `AsTableLines` takes the header off the head of the split lines;
  - `ParseLine` fills a fresh dictionary in a loop.

  `ParseTableLines`, `Rows` and `ParseTabular` are pure. A row with more
  tokens than the header has columns makes the source throw. The model
  returns `Throw` for it.
- `json.dfy` (module `Json`) is the structured decoder. Its record
  `KubernetesList` (ts/src/json.ts:7-24) declares `kind` as the literal
  "List"; the model widens it to a string, since nothing checks it
  (`Json.ShapeNotValidated`). `JSON.parse` is a
  caller-supplied deserializer `string -> Option<T>`. `None` means the text
  is rejected, and the decoder then throws.

Behaviour worth noting:
- A row with more tokens than there are columns throws: the column name past
  the end is `undefined`, and calling `trim` on it is a TypeError
  (ts/src/table.ts:73). The model returns
  `Throw` for it.
- `parseJSON` rejects only a standard output of length 0 (ts/src/json.ts:39).
  Whitespace-only output is passed on, trimmed, to the deserializer
  (`Json.WhitespaceOnlyStdout`).
- The failure messages are "Unable to run kubectl" (ts/src/table.ts:45,
  ts/src/json.ts:35) and "Kubectl returned empty JSON" (ts/src/json.ts:40).

## Model

| member | source | states |
|---|---|---|
| Errorable.ReasonLiteral | ts/src/errorable.ts:26-33 | every reason is spelled as one of the three literals `failed-to-run`, `kubectl-error`, `failed-to-parse` |
| Errorable.ReasonLiteralsExact | ts/errorable.ts:8 | the literal union admits exactly the three spellings, and no two reasons share a spelling |
| Errorable.IsSucceeded | ts/src/errorable.ts:52-54 | when the guard holds the value is `Succeeded` and its result can be read; otherwise it is `Failed` with reason and error |
| Errorable.IsFailed | ts/src/errorable.ts:62-64 | when the guard holds the value is `Failed` and its reason and error can be read; otherwise it is `Succeeded` |
| Errorable.GuardsPartition | ts/errorable.ts:12-20 | `failed` is the negation of `succeeded`; each holds exactly on its own variant, so exactly one holds |
| Kubectl.EmptyDictionary | ts/src/dictionary.ts:14-16 | `Dictionary.of()` has no keys |
| Text.IsWhitespace | ts/src/table.ts:5 | the characters `\s` matches and `trim` strips, ECMAScript WhiteSpace and LineTerminator: line feed, carriage return, tab and space are among them; `'\|'`, ASCII letters and digits are not |
| Text.Trim | ts/src/json.ts:42 | `trim` never lengthens a text, and a non-empty text that neither starts nor ends with whitespace is its own trim |
| Text.TrimShape | ts/src/json.ts:42 | `trim` cuts whitespace off both ends and only there: the result is a contiguous slice bounded by whitespace, does not start or end with whitespace, is the input when it has none and empty when it is all whitespace |
| Text.TrimIdempotent | ts/src/json.ts:39-43 | trimming twice is trimming once |
| Text.TrimNoWhitespace | ts/src/table.ts:73 | a text without whitespace is unchanged by `trim` |
| Text.TrimAllWhitespace | ts/src/json.ts:42 | a text of whitespace only trims to the empty string |
| Text.Split | ts/src/table.ts:49 | `split` yields at least one piece, and no piece holds the separator |
| Text.SplitChars | ts/src/table.ts:65 | every character of a piece comes from the split text |
| Text.JoinSplit | ts/src/table.ts:49 | joining the pieces with the separator gives back the input |
| Text.SplitJoin | ts/src/table.ts:49 | splitting a join of separator-free pieces gives back the pieces |
| Text.SplitAround | ts/src/table.ts:49 | splitting around one separator is splitting each side |
| Text.CollapseLeavesNoWhitespace | ts/src/table.ts:5 | replacing each whitespace run by `'\|'` leaves no whitespace |
| Text.CollapseAround | ts/src/table.ts:65 | a whitespace run between two texts becomes exactly one `'\|'` between their collapses |
| Text.CollapseWhitespace | ts/src/table.ts:71 | collapsing never lengthens a text, and the result is empty exactly when the text is |
| Text.LowerChar | ts/src/table.ts:65 | ASCII capitals map to small letters; every other character is unchanged |
| Text.Lower | ts/src/table.ts:65 | lower-casing works character by character and keeps the length |
| Text.LowerAll | ts/src/table.ts:65 | lower-casing a list of names works name by name |
| Table.NonEmptyLines | ts/src/table.ts:54 | the filter never adds lines |
| Table.NonEmptyLinesMembers | ts/src/table.ts:54 | the filter keeps exactly the lines of non-zero length, whitespace-only lines included |
| Table.NonEmptyLinesAppend | ts/src/table.ts:54 | the filter distributes over concatenation, so order is kept |
| Table.NonEmptyLinesKeepsAll | ts/src/table.ts:54 | a list of non-empty lines passes the filter unchanged |
| Table.TableLinesOf | ts/src/table.ts:43-59 | the result is a failure exactly when kubectl did not run or exited non-zero; a success's header holds no newline, its body has fewer lines than the split stdout, and an empty header comes with an empty body |
| Table.AsTableLines | ts/src/table.ts:43-59 | not run gives `Failed(failed-to-run, "Unable to run kubectl")`; a non-zero code gives `Failed(kubectl-error, stderr)`; code 0 succeeds with the first newline-separated segment as header, an empty body when that header is empty, and otherwise the non-empty later segments as body |
| Table.HeaderIsFirstLine | ts/src/table.ts:49-53 | with code 0 the header is a newline-free prefix of stdout that ends at the first newline or at the end of stdout, and it is not trimmed |
| Table.BodyIsNonEmptyLaterLines | ts/src/table.ts:49-55 | with code 0 and a non-empty header, the body holds exactly the non-empty segments after the header, and header and segments rejoined with newlines give stdout |
| Table.TableLinesIgnoresStderr | ts/src/table.ts:48-56 | with code 0 stderr does not affect the result |
| Table.NoResourcesFound | ts/test/table.ts:33-39 | empty stdout with stderr "No resources found." gives header `''` and an empty body |
| Table.TableLinesFailuresDescribed | ts/src/table.ts:44-46 | every failure of `asTableLines` describes its cause (stderr verbatim for `kubectl-error`, the fixed message for `failed-to-run`), and none is `failed-to-parse` |
| Table.Columns | ts/src/table.ts:65 | tokenizing yields at least one token, and no token holds whitespace or `'\|'` |
| Table.ColumnsOfWord | ts/src/table.ts:71 | a word without whitespace is one token |
| Table.ColumnsAround | ts/src/table.ts:71 | a whitespace run separates the tokens of its two sides |
| Table.LeadingWhitespaceEmptyToken | ts/src/table.ts:71 | leading whitespace produces an empty first token |
| Table.TrailingWhitespaceEmptyToken | ts/src/table.ts:71 | trailing whitespace produces an empty last token |
| Table.Row | ts/src/table.ts:72-74 | a row has at most one key per token, and the first column's name is a key whenever there is a token |
| Table.WhitespaceOnlyLine | ts/src/table.ts:54 | a whitespace-only body line tokenizes to two empty tokens, so under any one-column header it throws |
| Table.ColumnsLower | ts/src/table.ts:65 | tokenizing the lower-cased header is lower-casing the header's tokens |
| Table.ColumnNames | ts/src/table.ts:65 | the column names are the lower-cased header tokens, and trimming them changes nothing |
| Table.RowKeys | ts/src/table.ts:72-74 | the keys after k assignments are the trimmed names of columns 0..k-1; later columns are absent, not padded |
| Table.RowValue | ts/src/table.ts:73 | each key maps to the trimmed token of the last position carrying that name, so a later duplicate overwrites an earlier one |
| Table.ParseLine | ts/src/table.ts:69-76 | the loop throws exactly when the line has more tokens than there are column names; otherwise it returns the dictionary that pairs each trimmed token with the trimmed name of its column |
| Table.LineRowKeys | ts/src/table.ts:65-75 | for a row of k tokens, k at most the number of header tokens, a key is present exactly when it is one of the lower-cased header tokens 0..k-1 |
| Table.LineRowValues | ts/src/table.ts:65-75 | each key maps to the token at the last position carrying that column name; values are trimmed and not lower-cased |
| Table.LineRow | ts/src/table.ts:69-76 | a line throws exactly when it has more tokens than there are columns; otherwise its dictionary has at most one key per token and holds the first column's name |
| Table.TrailingWhitespaceRowThrows | ts/src/table.ts:73 | a row that fills every column and then ends in whitespace has one token too many and throws |
| Table.RaggedRowExample | ts/src/table.ts:72-74 | a two-token row under three columns has only the first two keys |
| Table.DuplicateColumnExample | ts/src/table.ts:73 | under the columns `a a`, the row `x y` maps `a` to `y` |
| Table.Rows | ts/src/table.ts:66 | mapping the body gives exactly one dictionary per line, and throws when the first line throws |
| Table.RowsShape | ts/src/table.ts:66 | mapping the body throws exactly when some line throws, that is, has more tokens than there are columns; otherwise it gives one dictionary per line, in body order, each the line's row |
| Table.ParseTableLines | ts/src/table.ts:61-67 | it throws only with a non-empty header and body; otherwise it gives no rows for an empty header and one row per body line otherwise |
| Table.ParseTableLinesShape | ts/src/table.ts:61-67 | an empty header or body gives no rows; otherwise the result is one row per body line, in order, or a throw when some line is too wide |
| Table.ParseTabular | ts/src/table.ts:24-32 | it throws only when kubectl exited with code 0; it fails exactly when `asTableLines` fails; a success has one row per body line |
| Table.ParseTabularFailures | ts/src/table.ts:24-32 | a failure of `asTableLines` is returned unchanged: not run gives `failed-to-run`, a non-zero code gives `kubectl-error` with stderr, and no failure is `failed-to-parse` |
| Table.ParseTabularRows | ts/src/table.ts:24-32 | with code 0, the result succeeds with one row per body line, or throws exactly when some body line is too wide for the lower-cased header |
| Table.SampleTable | ts/test/table.ts:75-86 | the three-line sample listing decodes to the two rows `{name: foo, foo: true, bar: false}` and `{name: barbar, foo: false, bar: twice}` |
| Json.ParseJSON | ts/src/json.ts:33-47 | not run gives `failed-to-run`; a non-zero code gives `kubectl-error` with stderr; code 0 with empty stdout gives `failed-to-parse`, "Kubectl returned empty JSON"; otherwise it succeeds exactly when the deserializer accepts the trimmed stdout, with that value, and throws exactly when it rejects it |
| Json.ParseJSONCollection | ts/src/json.ts:57-59 | the list decoder is the same decoder at the list type: a success is exactly what the deserializer made of the trimmed stdout |
| Json.EmptyStdout | ts/src/json.ts:39 | output rejected as missing trims to nothing (the converse fails: see `Json.WhitespaceOnlyStdout`) |
| Json.ParseJSONFailuresDescribed | ts/src/json.ts:34-46 | every failure describes its cause, and `failed-to-parse` arises only from empty stdout; rejected text throws instead |
| Json.ExitCodeCheckedFirst | ts/src/json.ts:38-46 | with a non-zero code neither stdout nor the deserializer influences the result |
| Json.ParseJSONIgnoresStderr | ts/src/json.ts:38-44 | with code 0 stderr does not influence the result |
| Json.WhitespaceOnlyStdout | ts/src/json.ts:39-42 | whitespace-only stdout passes the empty check, and the deserializer is given the empty string |
| Json.TrimInvariance | ts/src/json.ts:39-43 | trimming stdout beforehand changes nothing unless nothing is left, in which case it would change the outcome to the empty-output failure |
| Json.OnlyTrimmedTextConsulted | ts/src/json.ts:42 | two deserializers that agree on the trimmed stdout give the same result |
| Json.ShapeNotValidated | ts/src/json.ts:57-59 | the list shape is not checked (the cast at ts/src/json.ts:42 validates nothing): a deserialized value whose kind is "Widget" is returned as a success |
| Json.CollectionReturnsItems | ts/test/json.ts:84-99 | the list the deserializer builds from non-empty stdout is returned with its kind and all its items, one or none alike |

## Left out

- JSON grammar: `JSON.parse` is a foreign call. It is a caller-supplied function. The unchecked `as T` cast is not modelled.
- Exceptions: a thrown exception is `Throw`, without its type or message.
- Lower-casing: `toLowerCase` is modelled on ASCII letters only. Other Unicode case mappings are not modelled.
- Character model: strings are sequences of Unicode scalar values, not UTF-16 code units. Surrogate pairs are not modelled.
- Exit codes: the exit code is an integer. `code === 0` on a non-integer or NaN number is not modelled.
- Dictionary keys: a `__proto__` column name is an ordinary key in the model. On a JavaScript object, assigning it does not create an own property.
- Column separator: `parseTableLines` takes the separator as a parameter, but its only caller passes `/\s+/g`. The model fixes that separator. Global-regex `lastIndex` state plays no part in `replace`.
- Process invocation: no kubectl run, and no I/O, is modelled. The re-exports in `ts/src/index.ts:16-19` carry no behaviour.
- Test harnesses: the mocha tests are not modelled. Their expectations appear as lemmas (`Table.NoResourcesFound`, `Table.SampleTable`, `Json.CollectionReturnsItems`).
