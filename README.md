# batch-operation-files in Dafny

A model of the logic inside the Raycast extension *batch-operation-files*. The
extension keeps named **variables** and command presets called **parameter sets**
in one persisted document. It resolves `{{name}}` placeholders in a preset's paths
against the variables, then runs an external file tool. Finally it reports the
tool's outcome as markdown.

Modules, following the source files:

- `Types` (`types.dfy`) holds the records of `src/types.ts`. Optional properties
  become `Option`, and the command kind `"copy" | "modify-json"` becomes a datatype.
- `Lists` (`lists.dfy`) holds the list updates the store uses: `findIndex`,
  replace-or-append ("upsert"), and the two `filter`s by key.
- `Storage` (`storage.dfy`) models `src/storage.ts` as a class `Store`.
  - Its one field `item` is the value stored under the storage key.
  - Every operation reads the whole document, changes it and writes it back.
- `Template` (`template.dfy`) models `replaceVariables`. It is a left fold of a
  global, literal replace-all of `{{name}}` by the variable's value.
- `Process` (`process.dfy`) models `runCliCommand`. The child process is an input:
  the data chunks in arrival order, and the first settling event.
  - A loop accumulates stdout and stderr.
  - A decision table then produces the `CommandOutput`.
- `CopyCommand` (`copy.dfy`) models `handleParamSetSelect`. It builds the argument
  vector from one snapshot of the variables, runs the tool and renders the report.
- `Forms` (`forms.dfy`) models the two form submit handlers.
  - Each runs ordered required-field checks and builds a record.
  - Only on acceptance does it call the store.

## Model

| member | source | states |
|---|---|---|
| Lists.IndexOfKey | src/storage.ts:25 | the result is the first index whose key matches, or -1 exactly when no entry matches |
| Lists.Upsert | src/storage.ts:25-30 | the new entry is in the result, and every other entry of the result was already in the list |
| Lists.UpsertReplacesFirstMatch | src/storage.ts:26-27 | with a match at i and none before it: length unchanged, entry i is the new one, every other entry unchanged |
| Lists.UpsertAppendsNewKey | src/storage.ts:28-30 | with no match, the new entry is appended last and the length grows by one |
| Lists.UpsertKeepsKeysUnique | src/storage.ts:25-30 | unique keys stay unique, and afterwards exactly one entry has the new key: the new entry |
| Lists.RemoveKey | src/storage.ts:36 | the result keeps exactly the entries whose key differs and is no longer than the input |
| Lists.SelectKey | src/storage.ts:42 | the result keeps exactly the entries whose key matches and is no longer than the input |
| Lists.RemoveKeyAppend | src/storage.ts:36 | removing distributes over concatenation, so survivors keep their order |
| Lists.SelectKeyAppend | src/storage.ts:42 | selecting distributes over concatenation, so selected entries keep their order |
| Lists.RemoveAbsentKey | src/storage.ts:36 | removing a key no entry has returns the list unchanged |
| Lists.RemoveKeyIdempotent | src/storage.ts:36 | removing a key twice equals removing it once |
| Lists.RemoveKeyKeepsUnique | src/storage.ts:34-38 | removing entries keeps keys unique, so deletes never break the store's uniqueness of names and ids |
| Lists.SelectRemovePartition | src/storage.ts:36-42 | the selected and the removed entries together are the list, as counts and as multisets |
| Storage.ReadDocument | src/storage.ts:6-12 | an absent item reads as the document with no variables and no parameter sets; a present one reads as itself |
| Storage.ParamSetsFor | src/storage.ts:40-43 | an entry is returned exactly when it is stored and has the requested command |
| Storage.CopyRemainderIsModifyJson | src/storage.ts:42 | dropping the copy presets leaves exactly the modify-json presets |
| Storage.ParamSetsPartition | src/storage.ts:40-43 | the copy and modify-json views partition the stored parameter sets, and neither holds the other kind |
| Storage.Store.constructor | src/storage.ts:6-10 | a fresh store has no item and reads as the empty document |
| Storage.Store.GetVariables | src/storage.ts:18-21 | returns the document's variables, and the empty list when nothing is stored |
| Storage.Store.SaveVariable | src/storage.ts:23-32 | the stored document becomes the old one with the variable upserted by name; parameter sets unchanged |
| Storage.Store.DeleteVariable | src/storage.ts:34-38 | the stored document becomes the old one without the variables of that name; parameter sets unchanged |
| Storage.Store.GetParamSets | src/storage.ts:40-43 | returns the stored parameter sets of the command in document order, never one of the other kind |
| Storage.Store.SaveParamSet | src/storage.ts:45-54 | the stored document becomes the old one with the parameter set upserted by id; variables unchanged |
| Storage.Store.DeleteParamSet | src/storage.ts:56-60 | the stored document becomes the old one without the parameter sets of that id; variables unchanged |
| Template.ReplaceAll | src/storage.ts:64-65 | the definition of a global literal replace (leftmost first, no overlap); it keeps the length when pattern and replacement have equal length and is the identity when they are equal; its properties are stated by ReplaceAllAbsent, ReplaceAllFirstOccurrence and ReplaceAllJoin |
| Template.ReplaceVariables | src/storage.ts:62-66 | the definition of the fold; variables whose value is their own placeholder leave the text unchanged; its properties are stated by ReplaceVariablesEmpty, ReplaceVariablesAppend, ReplaceVariablesUnmatched and ReplaceVariableEverywhere |
| Template.LetterNameIsLiteral | src/storage.ts:64 | a name made only of ASCII letters is matched literally by the regular expression built from it |
| Template.PlaceholderBorderless | src/storage.ts:64 | for a plain name, no proper prefix of `{{name}}` is also a suffix, so occurrences cannot overlap |
| Template.ReplaceAllAbsent | src/storage.ts:65 | a global replace of a pattern that does not occur changes nothing |
| Template.ReplaceAllFirstOccurrence | src/storage.ts:65 | the leftmost occurrence is replaced and the scan resumes after it |
| Template.ReplaceAllJoin | src/storage.ts:64-65 | text made of pattern-free parts separated by the pattern becomes the same parts separated by the replacement: every occurrence is replaced |
| Template.ReplaceVariablesEmpty | src/storage.ts:62-63 | with no variables the text is returned unchanged |
| Template.ReplaceVariablesAppend | src/storage.ts:63-66 | substitution runs variable by variable in list order: resolving against a + b is resolving against a, then b |
| Template.ReplaceVariablesUnmatched | src/storage.ts:63-66 | text that holds none of the variables' placeholders is returned unchanged |
| Template.ReplaceVariableEverywhere | src/storage.ts:64-65 | every occurrence of a variable's placeholder becomes its value, and the text between occurrences is kept |
| Template.LeadingPlaceholder | src/storage.ts:64-65 | a leading placeholder followed by placeholder-free text becomes the value followed by that text |
| Template.SolePlaceholder | src/storage.ts:64-65 | a text that is exactly one placeholder becomes the value |
| Template.RepeatedPlaceholderExample | src/storage.ts:62-66 | `"{{A}}/{{A}}"` with A = "x" gives `"x/x"` |
| Template.UnknownPlaceholderExample | src/storage.ts:62-66 | `"{{B}}"` with only A defined stays `"{{B}}"` |
| Template.ChainedPlaceholder | src/storage.ts:63-66 | a value that is a later variable's placeholder is resolved again, to that variable's value |
| Template.OrderDependenceExample | src/storage.ts:63-66 | `"{{A}}"` with A = `"{{B}}"` then B = "y" gives "y" |
| Template.OrderDependenceReversed | src/storage.ts:63-66 | with B = "y" first and A = `"{{B}}"` second, `"{{A}}"` gives `"{{B}}"`: order matters |
| Process.Collected | src/utils.ts:19-25 | the definition of what one stream accumulates: the in-order concatenation of its chunks; nothing is collected on a stream no chunk arrived on; see CollectedAppend and RunCliCommand |
| Process.CodeText | src/utils.ts:32 | `${code}`: exactly "null" for a null code; otherwise the decimal digits, after a '-' when negative, which read back as the code |
| Process.Classify | src/utils.ts:27-49 | the close/error decision table; always well formed; success exactly for close code 0 with empty stderr, and the output is then stdout |
| Process.Outcome | src/utils.ts:6-58 | what runCliCommand resolves to; always well formed, and a synchronous throw fails with its message; see OutcomeSuccessIff, CloseFailure and LaunchFailure |
| Process.CollectedAppend | src/utils.ts:19-25 | the text collected on a stream over a split chunk sequence is the concatenation of the two halves' texts |
| Process.CollectedIgnoresOtherStream | src/utils.ts:19-25 | a chunk on the other stream leaves a stream's text unchanged |
| Process.NatText | src/utils.ts:32 | the decimal rendering of an exit code is a non-empty string of digits |
| Process.NatTextRoundTrip | src/utils.ts:32 | reading the rendered digits back gives the number |
| Process.RunCliCommand | src/utils.ts:5-59 | the loop's stdout/stderr are the in-order concatenations of the chunks on each stream; the result is the outcome of the launch and is always well formed |
| Process.OutcomeWellFormed | src/utils.ts:6-58 | every settled launch yields an outcome and the promise never rejects; successes carry output and no error, failures an error and no output |
| Process.OutcomeSuccessIff | src/utils.ts:27-39 | success exactly when the child closed with code 0 and wrote nothing to stderr; the output is then all of stdout with the success message |
| Process.CloseFailure | src/utils.ts:28-33 | a non-zero or null code, or any stderr, fails with "Command failed"; the error is stderr when non-empty, else "Process exited with code " and the code |
| Process.LaunchFailure | src/utils.ts:43-56 | a spawn error or a synchronous throw fails with "Command execution failed" and the error's message |
| Process.ClassificationTable | src/utils.ts:27-49 | concrete rows: (0, no stderr), (0, "warn"), (2, no stderr) and a spawn error, with their exact outcomes |
| CopyCommand.BuildCopyArgs | src/copy.tsx:18-28 | the vector is copy, --from, resolved from, --to, resolved to, then --skip-exist exactly when skipExist is true; length 6 or 5 |
| CopyCommand.CopyArgsDeterministic | src/copy.tsx:15-28 | the vector is determined by the preset and the one variable snapshot |
| CopyCommand.CopyArgsIgnoreJsonPath | src/copy.tsx:16-28 | a jsonPath on the preset does not affect the vector |
| CopyCommand.CopyArgsVocabulary | src/copy.tsx:18-28 | every element is a fixed word or one of the two resolved paths |
| CopyCommand.ResolvesLeading | src/copy.tsx:21-23 | a path made of a variable's placeholder and a shorter rest resolves to the value followed by the rest |
| CopyCommand.DesktopIsLiteral | src/copy.tsx:21-23 | the example variable Desktop = "/Users/x/Desktop" substitutes literally |
| CopyCommand.DesktopExample | src/copy.tsx:18-28 | with Desktop = "/Users/x/Desktop", `{{Desktop}}/a`, `{{Desktop}}/b` and skipExist, the vector is copy, --from, "/Users/x/Desktop/a", --to, "/Users/x/Desktop/b", --skip-exist |
| CopyCommand.Report | src/copy.tsx:31-35 | the definition of the report string; it opens with its verdict head; see ReportVerdict, ReportSections and ReportShowsOutput |
| CopyCommand.ErrorReport | src/copy.tsx:37-38 | the catch report: the nine characters "# Error\n\n" followed by exactly the message; see ErrorReportVerdict |
| CopyCommand.ErrorReportVerdict | src/copy.tsx:37-38 | the exception report starts with "# Error", never "# Success", and ends with the message |
| CopyCommand.ReportVerdict | src/copy.tsx:31-33 | the report starts with "# Success" exactly for a success and "# Error" exactly for a failure, then the message |
| CopyCommand.ReportSections | src/copy.tsx:34-35 | after the head the report is exactly the Output section then the Error section; the Output section is present iff output is non-empty, the Error section iff error is non-empty (whatever the output), and the tail is empty iff both are |
| CopyCommand.ReportShowsOutput | src/copy.tsx:34 | a non-empty output appears verbatim inside the Output section |
| CopyCommand.HandleParamSetSelect | src/copy.tsx:12-42 | when reading the variables fails nothing runs and the report is "# Error" plus the message; otherwise the vector is the copy vector and the report renders the tool's outcome |
| Forms.ParamSetChecks | src/components/ParamSetList.tsx:101-116 | the checks run name, from, to, and a fourth jsonPath check only for modify-json |
| Forms.SubmitParamSet | src/components/ParamSetList.tsx:94-135 | accepted exactly when every check passes; a rejection names the first failing check with its text; an accepted record is valid, copies name/from/to/skipExist, keeps an existing id and createdAt, takes the fresh id and `now` when creating, and sets updatedAt to `now` |
| Forms.CopyFormIgnoresJsonPath | src/components/ParamSetList.tsx:113-128 | on the copy form jsonPath is never checked and never recorded |
| Forms.NameReportedFirst | src/components/ParamSetList.tsx:101-104 | an empty name is rejected with "Name is required" whatever else is empty |
| Forms.SaveAcceptedParamSetKeepsValid | src/components/ParamSetList.tsx:119-131 | saving an accepted parameter set keeps every stored record valid and ids and names unique |
| Forms.EditReplacesInPlace | src/components/ParamSetList.tsx:119-131 | editing a stored preset (unique ids) overwrites it at its position, with length and other entries unchanged |
| Forms.CreateAppends | src/components/ParamSetList.tsx:119-131 | creating with an id not yet stored appends the new preset |
| Forms.SubmitParamSetForm | src/components/ParamSetList.tsx:94-135 | a rejection leaves the store untouched; an acceptance upserts the record; a valid document (valid records, unique ids and names) stays valid |
| Forms.SubmitVariable | src/components/VariableList.tsx:76-93 | accepted exactly when name and value are non-empty, saving exactly that pair; an empty name is reported before an empty value |
| Forms.SaveAcceptedVariableKeepsValid | src/components/VariableList.tsx:86-89 | saving an accepted variable keeps every stored record valid and ids and names unique |
| Forms.DeleteKeepsValid | src/storage.ts:34-60 | deleting variables or parameter sets keeps a valid document valid, uniqueness of names and ids included |
| Forms.SubmitVariableForm | src/components/VariableList.tsx:76-93 | a rejection leaves the store untouched; an acceptance upserts the pair; a valid document (valid records, unique ids and names) stays valid |

## Left out

- Persistence: `LocalStorage.getItem`/`setItem` and the JSON encoding are abstracted to `Store.item`, the decoded document (src/storage.ts:6-16).
  - A stored empty string also reads as empty in the source; the model has no string layer for it.
  - A malformed stored value that makes `JSON.parse` throw is not modelled.
- Template.ReplaceVariables: the source builds a regular expression from the unescaped name and passes the value as a replacement pattern. The model substitutes literally and requires two things of every variable:
  - the name holds no regular-expression metacharacter and is not made only of digits and commas;
  - the value holds no `$`.
  Other names and values are not modelled.
- Process spawning: locating the executable under `HOME`, and `spawn` itself (src/utils.ts:9,15-17). The child is an input (`Launch`).
  - Node's event ordering is not modelled: the chunks and the first settling event are given, and a later resolve is ignored.
  - A child that emits neither 'close' nor 'error' is not modelled. The source has no timeout, so its promise stays pending; every `Launch` here carries a settling event.
- Process.CodeText: `${code}` is rendered for integer codes and null only; Node never reports other values.
- `generateId` and `Date.now` become the parameters `freshId` and `now`. `formatDate` (src/utils.ts:61-67) is display only.
- Timestamps are unbounded integers rather than JavaScript numbers.
- CopyCommand.HandleParamSetSelect:
  - The loading flag is not modelled.
  - A failure to read the variables is the `Err` input.
  - A thrown non-`Error` value is represented by its message string.
- UI: rendering, navigation and the `set*Error` setters (src/components/ParamSetList.tsx:13-69,137-188; src/components/VariableList.tsx:6-69,95-120; src/copy.tsx:44-65). A rejection is returned as a value instead.
- Concurrency: overlapping read-modify-write cycles on the store are sequential in the model.
- The modify-json command's entry point is not part of this model, because its source is not among the modelled files.
