# Sui Move playground: a verified model of its decision logic

This project models the decision logic of the Sui Move playground in Dafny. The playground is a browser editor for Move contracts, backed by a compiler service that writes a package, builds it and runs the `sui` command-line tool. The model covers:

- the `[addresses]` / `[dev-addresses]` text of the address editor. This takes in its parser, its formatter, the status of the intended address name, the value-reuse conflict check, the list edits and save;
- the page's compile gate, which can compile at once, offer to rewrite the manifest, or offer to open the editor;
- the manifest check and the reducers of the two playground stores;
- the configuration editor;
- the compile, test and deploy actions, with their guards, requests, failure records and the scraping of the deploy output;
- the service's command check, result shaping, Move.toml assembly and module-name bookkeeping, and its command-line loop;
- the choices made by the result panel, the file manager, the example loader, and the comma and `=` splitting of the command-line options.

The model follows the source files one module each:

| module | source |
|---|---|
| `EditAddresses`, `AddressEditor`, `ModuleHeader` | web/src/components/EditAddressesModal.tsx |
| `AppGate` | web/src/App.tsx |
| `ConfirmSlot` | the confirmation slot of web/src/App.tsx and web/src/components/EditAddressesModal.tsx, and the dialog web/src/components/ConfirmModal.tsx |
| `PlaygroundTypes`, `PlaygroundStore` | lib/providers/playground-provider.tsx (and its types) |
| `ConfigEditor` | components/sidebar/config-editor.tsx |
| `LegacyProvider` | components/providers/playground-provider.tsx |
| `PlaygroundActions` | lib/hooks/use-playground-actions.tsx |
| `MoveManifest`, `ApiServer` | api/src/main.rs |
| `CliOptions` | api/cli.rs |
| `ResultPanel` | components/result/result-panel.tsx |
| `FileManager` | components/sidebar/file-manager.tsx |
| `ExampleSelector` | components/sidebar/example-selector.tsx |
| `Wrappers`, `Seqs`, `JsText`, `RustText`, `Decimal` | helpers: `Option`; `Collect` (flat-map); the JavaScript and Rust string operations used (`trim`, `split`, `split_whitespace`, `lines`, ...); decimal printing |

The pieces are modelled in the shape the source gives them:

- **Pure text functions** are Dafny functions: the parsers, the formatter, the validators and the scrapers.
- **Loops in the source** are methods whose `while` or `for` loops are proved against a reference function. These loops are:
  - the validator's walk;
  - the module-naming loops;
  - the package-id scan;
  - the argument loop.
- **Components that keep state** are classes whose methods update fields. These are the file manager, the confirmation slot and the actions hook, which logs what it dispatches and sends.
- **The reducers** stay functions over an immutable state, as in the source.

A few behaviours of the code come out of the proofs and are worth knowing:

- **The service assembles a manifest that repeats `[package]`** (`ApiServer.EditorManifestRepeats`).
  - The playground sends its stored manifest. The store only ever holds one that passes `validateConfig`, so that manifest contains a `[package]` header.
  - The service appends the text it is sent after its own base, which already opens `[package]`.
  - The written Move.toml therefore always repeats `[package]`.
  - This is the error that `ParsedErrorMessage` recognises as a "redefinition of table" (`ResultPanel.RelayedDuplicate`).
- **An invalid edit replaces the whole manifest** (`ConfigEditor.EditOutcome`).
  - The configuration editor dispatches `SET_CONFIG` on every keystroke.
  - The reducer replaces any invalid text with the default manifest.
  - So an edit that leaves the text momentarily invalid replaces the whole manifest.
- **A command built for a path containing white space is split** (`ApiServer.TestCommandAccepted` and `ApiServer.DeployCommandAccepted`).
  - The hook's commands pass the service's check with exactly the intended arguments only when the bytecode path is one white-space-free token.
  - A path containing white space is split into several arguments.
- **The file type comes from the untrimmed name** (`FileManager.PaddedNameIsMarkdown`).
  - The empty-name check trims the typed name, but the type is read from the untrimmed name.
  - So `a.move ` becomes a Markdown file.

Three details of the code decide several answers:

- **The editor's parser needs exactly one `=`.**
  - It keeps a line only when splitting at `=` gives exactly two parts, and it removes every `'` and `"` from the value.
- **A wrong value is an `error`.** An intended address whose first row has a value other than `0x0` gets the status `error`, not a warning.
- **The page's gate is not keyed on a name.** It compiles at once when the manifest is non-blank and either some normal address value trims to `0x0`, whatever that address is called, or no module name is found.
  - App.tsx does not check the intended name itself.

## Model

| member | source | states |
|---|---|---|
| AddressEditor.WithIds | web/src/components/EditAddressesModal.tsx:58 | each parsed pair becomes a row with the same name and value and its own fresh id, in order |
| AddressEditor.Pairs | web/src/components/EditAddressesModal.tsx:5-9 | forgetting ids leaves the rows' name/value pairs, one per row, in order |
| AddressEditor.IntendedName | web/src/components/EditAddressesModal.tsx:125-126 | the name extracted from the source wins; otherwise a non-empty suggested name; otherwise none, and the result is never the empty string |
| AddressEditor.Load | web/src/components/EditAddressesModal.tsx:122-124 | the normal and dev tables hold exactly the parsed pairs, and every row of both tables has a distinct id |
| AddressEditor.NumberedTables | web/src/components/EditAddressesModal.tsx:122-124 | numbering the parsed normal pairs from the base and the dev pairs after them keeps every pair, gives all rows distinct ids, and keeps every id below the next unused one |
| AddressEditor.Opened | web/src/components/EditAddressesModal.tsx:120-126 | opening the dialog loads both tables from the manifest text with distinct ids and sets the intended name from the source or the suggestion |
| AddressEditor.TablesIds | web/src/components/EditAddressesModal.tsx:58-124 | numbering the dev rows after the normal rows gives all rows distinct ids below the next free id |
| AddressEditor.Closed | web/src/components/EditAddressesModal.tsx:127-131 | closing forgets the intended name and keeps both tables |
| AddressEditor.ClosedShowsNothing | web/src/components/EditAddressesModal.tsx:129-138 | a closed dialog shows no status banner, nor does one that was closed and not reopened |
| AddressEditor.AddBlank | web/src/components/EditAddressesModal.tsx:160-167 | adding appends exactly one blank row and keeps the others in place |
| AddressEditor.Remove | web/src/components/EditAddressesModal.tsx:169-175 | a row survives removal iff its id differs from the removed id |
| AddressEditor.Change | web/src/components/EditAddressesModal.tsx:177-189 | rows with the id get the new text in the named field only; every other row and field is unchanged |
| AddressEditor.QuickAdd | web/src/components/EditAddressesModal.tsx:322-331 | without an intended name nothing happens; otherwise the row (name, "0x0") is appended to the normal table |
| AddressEditor.AddBlankFormat | web/src/components/EditAddressesModal.tsx:68-167 | a blank row adds no line to the formatted text and does not make a section appear |
| AddressEditor.AddBlankInvisible | web/src/components/EditAddressesModal.tsx:66-211 | adding a blank row to either table changes neither the preview text nor the conflict messages |
| AddressEditor.AddBlankStatus | web/src/components/EditAddressesModal.tsx:140-167 | adding a blank row does not change the status of a non-empty intended name |
| AddressEditor.RemoveAbsent | web/src/components/EditAddressesModal.tsx:169-175 | removing an id no row has leaves the table unchanged |
| AddressEditor.RemoveOne | web/src/components/EditAddressesModal.tsx:169-175 | with distinct ids, removing row k's id removes exactly row k |
| AddressEditor.ChangeAbsent | web/src/components/EditAddressesModal.tsx:177-189 | changing an id no row has leaves the table unchanged |
| AddressEditor.QuickAddFixesMissing | web/src/components/EditAddressesModal.tsx:140-331 | after a quick add, an intended name that was missing has the info (correct) status |
| AddressEditor.QuickAddKeepsWrongValue | web/src/components/EditAddressesModal.tsx:140-331 | a quick add does not repair a wrong value: the first row with the name still decides the status |
| AddressEditor.FreshIdKeepsDistinct | web/src/components/EditAddressesModal.tsx:20-326 | appending a row with a fresh id keeps all ids distinct |
| AddressEditor.ModuleIssue | web/src/components/EditAddressesModal.tsx:215-224 | the save-time module message exists iff there is an intended name whose status is missing or wrong value, and it reports that same status |
| AddressEditor.SaveIssues | web/src/components/EditAddressesModal.tsx:226-230 | the issue list is the module message first (when there is one) and then the general conflicts; it is empty iff both are absent |
| AddressEditor.Perform | web/src/components/EditAddressesModal.tsx:246-255 | the staged action either does nothing or calls onSave with the formatted text and then onClose |
| AddressEditor.NewSaveSlot | web/src/components/EditAddressesModal.tsx:107-118 | the dialog's confirmation slot starts closed, with an empty title and message and an action that does nothing |
| AddressEditor.HandleSave | web/src/components/EditAddressesModal.tsx:213-256 | with no issue it saves the formatted text and closes, leaving the slot alone; otherwise it stages a warning confirmation listing the issues and saves nothing |
| AddressEditor.ConfirmSave | web/src/components/EditAddressesModal.tsx:246-410 | confirming the staged warning saves the formatted text, closes the dialog and closes the slot |
| EditAddresses.ExtractIntendedAddressName | web/src/components/EditAddressesModal.tsx:22-34 | the loop returns the name of the first header line among the first 20 lines, and that name is an identifier |
| EditAddresses.IntendedNameSeesPrefix | web/src/components/EditAddressesModal.tsx:23 | text after the 20th line has no effect on the extracted name, even when it holds a matching header |
| EditAddresses.LineEntry | web/src/components/EditAddressesModal.tsx:52-58 | a line yields a pair only when it holds '=' and does not start with '#'; the name comes trimmed and '='-free, and the value has no '=' and no quote |
| EditAddresses.ParseAddressesToml | web/src/components/EditAddressesModal.tsx:36-64 | the forEach loop with its mutable section returns exactly the line-by-line reading of the text (nothing for "") |
| EditAddresses.ReadLinesClean | web/src/components/EditAddressesModal.tsx:42-62 | reading more lines keeps every pair clean |
| EditAddresses.ParseClean | web/src/components/EditAddressesModal.tsx:54-57 | every parsed pair has a trimmed name and a value without '=' or any quote |
| EditAddresses.ReadLinesAppend | web/src/components/EditAddressesModal.tsx:42 | reading the lines is a left fold, so the text can be read in two parts |
| EditAddresses.ReadOutside | web/src/components/EditAddressesModal.tsx:41-60 | lines before the first section header contribute nothing |
| EditAddresses.KeptLines | web/src/components/EditAddressesModal.tsx:68-77 | a row contributes a line iff its trimmed name and value are non-blank, so there are lines iff some row is kept |
| EditAddresses.AppendRows | web/src/components/EditAddressesModal.tsx:73-87 | one table's loop appends the line of each kept row, with its newline, to the accumulator |
| EditAddresses.FormatAddressesToToml | web/src/components/EditAddressesModal.tsx:66-90 | the accumulator loop returns the formatted text |
| EditAddresses.LineEntryOf | web/src/components/EditAddressesModal.tsx:52-75 | the parser reads a formatted line back as the pair it was written from |
| EditAddresses.EqualsLineNotHeader | web/src/components/EditAddressesModal.tsx:44-52 | a line holding '=' is never taken for a section header |
| EditAddresses.ReadEntryLine | web/src/components/EditAddressesModal.tsx:42-75 | a kept clean row's line, read inside a section, adds its trimmed pair to that section |
| EditAddresses.ReadKept | web/src/components/EditAddressesModal.tsx:42-77 | inside a section, the formatted lines of clean rows read back as their pairs, in order |
| EditAddresses.BlockLines | web/src/components/EditAddressesModal.tsx:73-77 | one table's block is its kept lines, each followed by a newline |
| EditAddresses.KeptLinesQuoted | web/src/components/EditAddressesModal.tsx:75 | every formatted row line ends with a quote |
| EditAddresses.KeptLinesUnbroken | web/src/components/EditAddressesModal.tsx:75 | a formatted row line of clean rows holds no line break |
| EditAddresses.SectionLines | web/src/components/EditAddressesModal.tsx:72-87 | a section is written as its header line followed by its rows |
| EditAddresses.BodyIsLines | web/src/components/EditAddressesModal.tsx:67-88 | the accumulated text is the header and row lines, with one blank separator line between two sections, each ended by a newline |
| EditAddresses.TextLinesEnds | web/src/components/EditAddressesModal.tsx:71-88 | when something is kept the text starts with a section header and ends with a row ending in a quote |
| EditAddresses.FormatLines | web/src/components/EditAddressesModal.tsx:66-90 | when anything is kept, the trimmed result is the text lines joined by newlines |
| EditAddresses.FormatNothing | web/src/components/EditAddressesModal.tsx:66-90 | with no kept row the formatted text is "" |
| EditAddresses.ReadBoth | web/src/components/EditAddressesModal.tsx:42-88 | with both sections written, the parser gives back both tables' kept pairs |
| EditAddresses.ReadNormalOnly | web/src/components/EditAddressesModal.tsx:42-79 | with only the normal section written, the parser gives back its kept pairs and no dev pair |
| EditAddresses.ReadDevOnly | web/src/components/EditAddressesModal.tsx:42-88 | with only the dev section written, the parser gives back its kept pairs and no normal pair |
| EditAddresses.TextLinesUnbroken | web/src/components/EditAddressesModal.tsx:72-87 | the text lines of clean rows hold no line break |
| EditAddresses.RoundTrip | web/src/components/EditAddressesModal.tsx:36-90 | parsing the formatted text of clean rows gives back the trimmed name/value pairs of the kept rows, in order and in their own sections |
| Seqs.FirstIndex | web/src/components/EditAddressesModal.tsx:140 | the position of the first element that passes the test, with none before it passing, or the length when none does; the address lookup runs it with the exact-name test and the active-file lookup with the id test |
| Seqs.FirstIndexIs | web/src/components/EditAddressesModal.tsx:140 | an element that passes the test with no earlier one passing is the one found |
| EditAddresses.Classify | web/src/components/EditAddressesModal.tsx:140-157 | the status names the intended name, and it is "missing" iff no normal row has exactly that name |
| EditAddresses.ClassifyFirst | web/src/components/EditAddressesModal.tsx:140-157 | the first row with the name decides: info when its value lower-cases to 0x0, error otherwise |
| EditAddresses.AddressStatus | web/src/components/EditAddressesModal.tsx:134-158 | there is no status while closed or without an intended name; otherwise the status is about the intended name |
| EditAddresses.ConflictsFrom | web/src/components/EditAddressesModal.tsx:205-209 | every message is about one of the keys, carries all the names sharing that value, and has at least two of them |
| EditAddresses.GroupStep | web/src/components/EditAddressesModal.tsx:196-203 | one more kept row adds its key the first time it is seen and appends its name to that key's group |
| EditAddresses.NamesForAbsent | web/src/components/EditAddressesModal.tsx:199-202 | a value that is not a key has no names |
| EditAddresses.GroupedStep | web/src/components/EditAddressesModal.tsx:196-203 | one pass of the grouping loop body keeps the map equal to the grouping of the rows seen so far |
| EditAddresses.GroupNames | web/src/components/EditAddressesModal.tsx:193-203 | the first loop builds the map from each trimmed, lower-cased value to its trimmed names, keys in insertion order |
| EditAddresses.EmitStep | web/src/components/EditAddressesModal.tsx:205-209 | one more key adds a message iff its group has two or more names |
| EditAddresses.CheckGeneralAddressConflicts | web/src/components/EditAddressesModal.tsx:191-211 | the two loops return one message per value shared by two or more kept rows, in first-seen order |
| EditAddresses.BlankRowInvisible | web/src/components/EditAddressesModal.tsx:197 | a row blank in its name or value takes no part in the grouping, wherever it sits |
| EditAddresses.KeysDistinct | web/src/components/EditAddressesModal.tsx:199-201 | the map has no key twice |
| EditAddresses.KeysNames | web/src/components/EditAddressesModal.tsx:199-202 | a value is a key exactly when some row carries it |
| EditAddresses.ConflictValues | web/src/components/EditAddressesModal.tsx:205-209 | a message is emitted for a value exactly when it is a key that two or more rows carry |
| EditAddresses.ConflictsDistinct | web/src/components/EditAddressesModal.tsx:205-209 | distinct keys give messages about distinct values |
| EditAddresses.ConflictsExactly | web/src/components/EditAddressesModal.tsx:191-211 | a value is reported iff two or more kept rows of the normal and dev tables share it, and no value is reported twice |
| AppGate.PairOf | web/src/App.tsx:31-35 | a line yields a pair only when it holds '='; neither side holds '=', and the value has every double quote removed |
| AppGate.ParseNormalAddressesFromToml | web/src/App.tsx:17-39 | the forEach loop with its mutable in-section flag returns exactly the line-by-line reading of the text (nothing for "") |
| AppGate.NormalStepsAppend | web/src/App.tsx:21 | reading the lines is a left fold, so the text can be read in two parts |
| AppGate.NormalStepsGrow | web/src/App.tsx:34 | the reader only ever appends pairs |
| AppGate.HeaderStep | web/src/App.tsx:23-26 | an exact "[addresses]" line opens the table and keeps what was read |
| AppGate.PairOfEntry | web/src/App.tsx:31-35 | a line "n = q" is read back as n and q with its double quotes removed |
| AppGate.IdentifierChars | web/src/App.tsx:91 | a module identifier holds no '=', quote, line break or surrounding white space |
| AppGate.EntryStep | web/src/App.tsx:31-102 | inside the open table, the added "name = \"0x0\"" line contributes the pair (name, "0x0") |
| AppGate.AutoEntryShape | web/src/App.tsx:102 | the added entry line is trimmed, is no header and holds no line break |
| AppGate.OpeningSplit | web/src/App.tsx:125-127 | a rewrite that adds a table splits into the header, the entry and the rest's lines |
| AppGate.OpeningRead | web/src/App.tsx:23-127 | the header and the added entry open the table with the pair (name, "0x0") |
| AppGate.Decide | web/src/App.tsx:99-148 | compile at once iff the manifest is non-blank and has a zero address or no module name was found; open the editor iff blank with no module name; otherwise ask to rewrite, titled by whether the manifest is blank |
| AppGate.Perform | web/src/App.tsx:120-141 | the staged action does nothing, or stores the rewritten manifest and compiles with exactly it, or opens the address editor |
| AppGate.Rewrite | web/src/App.tsx:121-128 | the entry goes right after the first "[addresses]", or a new table is put in front of non-blank text, or a blank text becomes exactly the table with the entry |
| AppGate.BlankHasNoHeader | web/src/App.tsx:122 | a blank manifest never includes "[addresses]" |
| AppGate.EmptyLineStep | web/src/App.tsx:22-36 | an empty line changes nothing |
| AppGate.RewriteBlankParses | web/src/App.tsx:17-127 | for a blank manifest the rewrite parses to exactly one normal pair (name, "0x0") |
| AppGate.OpeningFirst | web/src/App.tsx:17-125 | reading the opening table and then anything keeps (name, "0x0") as the first pair |
| AppGate.RewritePrependParses | web/src/App.tsx:17-125 | for non-blank text without "[addresses]", the rewrite's first normal pair is (name, "0x0") |
| AppGate.RewriteNotBlank | web/src/App.tsx:121-128 | the rewritten manifest is never blank |
| AppGate.RewriteBlankThenCompiles | web/src/App.tsx:100-127 | after the blank-manifest confirmation, the next check compiles at once |
| AppGate.HasZeroOne | web/src/App.tsx:83 | a table holding (name, "0x0") has a zero address |
| AppGate.NewPageSlot | web/src/App.tsx:67-78 | the page's confirmation slot starts closed, with empty title and message and an action that does nothing |
| AppGate.CheckAddressesAndCompile | web/src/App.tsx:80-149 | either the compile starts with the manifest as it is and the slot is untouched, or a warning confirmation with the decided title, message and action is staged and nothing is compiled |
| ModuleHeader.IdStart | web/src/components/EditAddressesModal.tsx:27 | the identifier starts after "module" and the whole white-space run behind it |
| ModuleHeader.Match | web/src/components/EditAddressesModal.tsx:27 | a recognised name is an identifier that sits right after "module" and its white space |
| ModuleHeader.MatchSound | web/src/components/EditAddressesModal.tsx:27 | a recognised line is "module", non-empty white space, the identifier, and a terminator ("::", or also "{" after white space in the brace form of web/src/App.tsx:91) |
| ModuleHeader.TerminatorNotWord | web/src/components/EditAddressesModal.tsx:27 | a terminator never starts with a word character, so the identifier is the whole word run |
| ModuleHeader.RunOver | web/src/components/EditAddressesModal.tsx:27 | the run of a character class after a prefix is exactly the run given |
| ModuleHeader.MatchComplete | web/src/components/EditAddressesModal.tsx:27 | every line of the documented shape is recognised, with its identifier |
| ModuleHeader.FirstHit | web/src/components/EditAddressesModal.tsx:24-32 | the index of the first line that names a module, with no earlier line naming one |
| ModuleHeader.FirstNameNone | web/src/components/EditAddressesModal.tsx:33 | no name is found exactly when no line names a module |
| ModuleHeader.FirstHitIs | web/src/components/EditAddressesModal.tsx:24-32 | a naming line with only silent lines before it is the one found |
| ModuleHeader.FirstNameAt | web/src/components/EditAddressesModal.tsx:28-30 | the name found is the one on the first naming line |
| ModuleHeader.ScanModuleName | web/src/components/EditAddressesModal.tsx:22-34 | the loop over the first limit lines (20 here, 10 with the brace form in web/src/App.tsx:86-97) returns the name of the first line that has one |
| PlaygroundStore.SectionOf | lib/providers/playground-provider.tsx:52 | the section name is the header with its first and last characters dropped |
| PlaygroundStore.HeaderName | lib/providers/playground-provider.tsx:49-52 | a line with a section name trims to "[" + name + "]" |
| PlaygroundStore.ValidateConfig | lib/providers/playground-provider.tsx:43-64 | the loop over significant lines returns exactly the validity verdict of the text |
| PlaygroundStore.HeadersOfSignificants | lib/providers/playground-provider.tsx:45 | dropping blank and '#' lines drops no header |
| PlaygroundStore.FirstRepeat | lib/providers/playground-provider.tsx:53-54 | the index of the first header that repeats an earlier one, with no earlier header repeating |
| PlaygroundStore.FirstRepeatIs | lib/providers/playground-provider.tsx:53-54 | a repeating header with no earlier repeat is the one found |
| PlaygroundStore.NoRepeatsSnoc | lib/providers/playground-provider.tsx:53-56 | a new section name keeps the collected names free of repeats |
| PlaygroundStore.ScanRepeat | lib/providers/playground-provider.tsx:53-54 | a header already seen ends the scan with the first-repeat verdict |
| PlaygroundStore.ScanNewHeader | lib/providers/playground-provider.tsx:56 | a new header is added to the seen names and the scan goes on |
| PlaygroundStore.ScanPlain | lib/providers/playground-provider.tsx:48-58 | a line that is not a header changes nothing |
| PlaygroundStore.ScanJudges | lib/providers/playground-provider.tsx:48-60 | the early-return scan agrees with the reference verdict: the first repeated header, else whether "package" is present |
| PlaygroundStore.VerdictMeaning | lib/providers/playground-provider.tsx:43-64 | the verdict of a text is the reference verdict of all its headers, in document order |
| PlaygroundStore.ValidMeaning | lib/providers/playground-provider.tsx:43-64 | a text is valid iff its headers never repeat and include "package" |
| PlaygroundStore.SkipsInsignificant | lib/providers/playground-provider.tsx:45 | a blank or '#' line anywhere does not change the verdict |
| PlaygroundStore.PlainLine | lib/providers/playground-provider.tsx:51 | an unpadded line not starting with '[' is no header |
| PlaygroundStore.HeaderLine | lib/providers/playground-provider.tsx:51-52 | "[s]" is the header of section s |
| PlaygroundStore.DefaultHeaders | lib/providers/playground-provider.tsx:35-40 | the default manifest's headers are package and addresses |
| PlaygroundStore.TwoSectionsValid | lib/providers/playground-provider.tsx:43-64 | a text whose headers are exactly package, addresses is valid |
| PlaygroundStore.ThreeSectionsValid | lib/providers/playground-provider.tsx:43-64 | a text whose headers are exactly package, dependencies, addresses is valid |
| PlaygroundStore.DefaultConfigValid | lib/providers/playground-provider.tsx:35-64 | the default manifest passes the validator |
| PlaygroundStore.InitialState | lib/providers/playground-provider.tsx:66-79 | the initial state holds one Move file, which is active, nothing running, no results and a valid manifest |
| PlaygroundStore.UpdateContent | lib/providers/playground-provider.tsx:87-93 | files with the id get the new content and stamp; every other file is unchanged, and none is added or removed |
| PlaygroundStore.WithoutId | lib/providers/playground-provider.tsx:97 | a file survives iff its id differs from the deleted id |
| PlaygroundStore.WithoutIdAppend | lib/providers/playground-provider.tsx:97 | the survivors of two lists put together are the first list's survivors followed by the second's, so the filter keeps order and repeats |
| PlaygroundStore.WithoutIdAbsent | lib/providers/playground-provider.tsx:97 | deleting an id no file carries leaves the list unchanged |
| PlaygroundStore.WithoutIdOne | lib/providers/playground-provider.tsx:97 | with distinct ids, deleting the id of file k removes exactly that file and keeps the rest in order |
| PlaygroundStore.StoredConfig | lib/providers/playground-provider.tsx:118-121 | the stored manifest is always valid: the payload when valid, the default otherwise |
| PlaygroundStore.SetConfigIs | lib/providers/playground-provider.tsx:118-121 | SET_CONFIG changes the manifest alone |
| PlaygroundStore.MountCheck | lib/providers/playground-provider.tsx:137-143 | after the mount check the manifest is valid; a valid one is left alone, an invalid one is replaced by the default |
| PlaygroundStore.MountIdle | lib/providers/playground-provider.tsx:135-143 | the mount check does nothing to the initial state |
| PlaygroundStore.Reduce | lib/providers/playground-provider.tsx:81-127 | `playgroundReducer`; no contract of its own: its effect is stated by `ReduceFrame`, `ResultLands`, `TogglesInvolutive`, `DeleteFileEffect`, `UpdateFileEffect`, `SetConfigIs`, `ConfigOnlyBySetConfig` and `ReduceKeepsValid` |
| PlaygroundStore.ReduceKeepsValid | lib/providers/playground-provider.tsx:81-127 | every action keeps the stored manifest valid |
| PlaygroundStore.ConfigOnlyBySetConfig | lib/providers/playground-provider.tsx:118-121 | only `SET_CONFIG` changes the stored manifest, to the payload when it is valid and to the default otherwise; every other action keeps it |
| PlaygroundStore.RunKeepsValid | lib/providers/playground-provider.tsx:81-127 | any sequence of actions keeps the stored manifest valid |
| PlaygroundStore.ReachableValid | lib/providers/playground-provider.tsx:66-127 | the manifest is valid in every state reachable from the initial state |
| PlaygroundStore.ReduceFrame | lib/providers/playground-provider.tsx:81-127 | each field changes only under the actions that name it; SET_FILES, for one, leaves activeFileId alone |
| PlaygroundStore.ResultLands | lib/providers/playground-provider.tsx:104-113 | storing a compile, deploy or test result stores the payload and clears that operation's in-progress flag |
| PlaygroundStore.TogglesInvolutive | lib/providers/playground-provider.tsx:114-123 | each toggle flips its flag, and toggling twice gives back the state |
| PlaygroundStore.DeleteFileEffect | lib/providers/playground-provider.tsx:94-99 | DELETE_FILE keeps exactly the files with another id and clears the active id iff it was the deleted one |
| PlaygroundStore.UpdateFileEffect | lib/providers/playground-provider.tsx:87-93 | UPDATE_FILE changes only the content and stamp of files with the id |
| ConfigEditor.ValidateWithReason | components/sidebar/config-editor.tsx:31-59 | the walk accepts exactly the valid manifests, and the error text is the first repeated section's message or the missing-[package] message; an error is reported iff the manifest is invalid |
| ConfigEditor.ValidatorsAgree | components/sidebar/config-editor.tsx:31-59 | the editor's validator and the store's validator give the same verdict on every text |
| ConfigEditor.DuplicateIsFirstRepeat | components/sidebar/config-editor.tsx:37-46 | a reported duplicate is a header that appeared above it, and no earlier header repeats |
| ConfigEditor.FirstRepeatReported | components/sidebar/config-editor.tsx:37-46 | conversely, the first header that repeats an earlier one is the section reported |
| ConfigEditor.SaveConfig | components/sidebar/config-editor.tsx:61-77 | the toast is destructive iff the manifest is invalid, carrying the validation error; otherwise it is the "Configuration saved" toast; the store is not touched |
| ConfigEditor.ResetRestoresDefault | components/sidebar/config-editor.tsx:79-92 | the reset text, once dispatched, leaves the store holding exactly the default manifest and nothing else changed |
| ConfigEditor.ForceSplit | components/sidebar/config-editor.tsx:96-104 | the force-reset text splits back into its nine lines |
| ConfigEditor.ForceTextHeaders | components/sidebar/config-editor.tsx:96-104 | the force-reset text has exactly the headers package, dependencies, addresses, in that order |
| ConfigEditor.ForceResetStored | components/sidebar/config-editor.tsx:94-125 | the force-reset manifest is valid, so dispatching it stores it unchanged |
| ConfigEditor.EditOutcome | components/sidebar/config-editor.tsx:163-174 | an edit to a valid text stores it; an edit that leaves the text invalid stores the default manifest instead |
| ConfigEditor.MarksBelowHeaders | components/sidebar/config-editor.tsx:15-29 | every line the debug panel counts as `[package]` is a package header, so the count is at most the number of package headers |
| ConfigEditor.NoRepeatsAtMostOnce | components/sidebar/config-editor.tsx:43-46 | in a header list without repeats each name occurs at most once |
| ConfigEditor.DebugDuplicateInvalid | components/sidebar/config-editor.tsx:15-29 | when the debug panel reports a duplicate section, the validator rejects the manifest |
| LegacyProvider.InitialState | components/providers/playground-provider.tsx:60-71 | no files, nothing active, nothing running, no results, the sidebar open on the files tab |
| LegacyProvider.Reduce | components/providers/playground-provider.tsx:73-113 | the older `playgroundReducer`; no contract of its own: its effect is stated by `AddFileAppends`, `UpdateFileEffect`, `DeleteFileEffect`, `ResultLands`, `ToggleInvolutive`, `UpdateAgrees` and `DeleteAgrees` |
| LegacyProvider.AddFileAppends | components/providers/playground-provider.tsx:77-78 | ADD_FILE puts the file at the end and keeps the earlier files in order |
| LegacyProvider.UpdateFileEffect | components/providers/playground-provider.tsx:79-85 | UPDATE_FILE changes the content of exactly the files with that id, in place, and no other file |
| LegacyProvider.WithoutIdMembers | components/providers/playground-provider.tsx:89 | the filter keeps exactly the files whose id differs |
| LegacyProvider.WithoutIdAppend | components/providers/playground-provider.tsx:89 | the survivors of two lists put together are the first list's survivors followed by the second's, so the filter keeps order and repeats |
| LegacyProvider.WithoutIdAbsent | components/providers/playground-provider.tsx:89 | deleting an id no file carries leaves the list unchanged |
| LegacyProvider.WithoutIdOne | components/providers/playground-provider.tsx:89 | with distinct ids, deleting the id of file k removes exactly that file and keeps the rest in order |
| LegacyProvider.DeleteFileEffect | components/providers/playground-provider.tsx:86-91 | DELETE_FILE keeps exactly the files with another id, and clears the active id iff it was the deleted one |
| LegacyProvider.ResultLands | components/providers/playground-provider.tsx:96-105 | each result action stores its payload and clears the matching in-progress flag |
| LegacyProvider.ToggleInvolutive | components/providers/playground-provider.tsx:106-107 | toggling flips the sidebar, and toggling twice restores the state |
| LegacyProvider.UpdateAgrees | components/providers/playground-provider.tsx:79-85 | apart from the modification stamp, the older and the current store edit a file the same way |
| LegacyProvider.DeleteAgrees | components/providers/playground-provider.tsx:86-91 | apart from the stamp, both stores delete the same files and keep the rest in order |
| ConfirmSlot.Slot.constructor | web/src/App.tsx:67-78 | the slot starts closed, with empty title and message, a no-op action and no variant |
| ConfirmSlot.Slot.Shown | web/src/components/ConfirmModal.tsx:23-39 | the dialog shows the staged variant, and `default` when none was staged |
| ConfirmSlot.Slot.Stage | web/src/App.tsx:67-78 | staging opens the slot and overwrites every field, whatever was staged before |
| ConfirmSlot.Slot.Cancel | web/src/components/ConfirmModal.tsx:48-67 | cancel or the close cross closes the slot, runs nothing and leaves the other fields as they were |
| ConfirmSlot.Slot.Confirm | web/src/components/ConfirmModal.tsx:68-76 | confirming hands back exactly the staged action and then closes the slot as cancel does |
| PlaygroundActions.ActiveFile | lib/hooks/use-playground-actions.tsx:14 | a found file is in the list and carries the active id; nothing is found for a null id, or when no file has the id |
| PlaygroundActions.LabelMatch | lib/hooks/use-playground-actions.tsx:159-165 | the position returned is the leftmost one where the label is followed by a non-space character |
| PlaygroundActions.Capture | lib/hooks/use-playground-actions.tsx:159-167 | no match iff the label is never followed by a non-space character; otherwise the maximal non-space run after the leftmost match |
| PlaygroundActions.NonSpaceRun | lib/hooks/use-playground-actions.tsx:159 | from a non-space character, the longest run of non-space characters, ending at a space or at the end of the text |
| PlaygroundActions.ScrapeDeploy | lib/hooks/use-playground-actions.tsx:155-175 | success, output and error are kept; nothing changes unless the deploy succeeded with non-empty output; then the digest and the package id are the captured ones, with the table lookup only when `Package ID: ` does not match |
| PlaygroundActions.Playground.constructor | lib/providers/playground-provider.tsx:66-79 | the hook starts on the store's initial state, with nothing dispatched and nothing sent |
| PlaygroundActions.Playground.Dispatch | lib/providers/playground-provider.tsx:81-127 | one dispatch logs the action and moves the state by the reducer |
| PlaygroundActions.Playground.CompileCode | lib/hooks/use-playground-actions.tsx:13-81 | without an active Move file nothing is dispatched or sent; otherwise the file's content and name and the stored manifest are sent, loading then the result (or the failure record) are dispatched, and only the compile fields change |
| PlaygroundActions.Playground.RunTests | lib/hooks/use-playground-actions.tsx:83-134 | without a successful compile that left a bytecode path nothing happens; otherwise exactly `sui move test --path <path>` is sent and the answer, or the failure record, lands as the test result |
| PlaygroundActions.Playground.DeployContract | lib/hooks/use-playground-actions.tsx:136-211 | the same guard; the publish command with the budget is sent; the stored result is the failure record on a throw; a returned answer keeps its success, output and error, is stored unchanged unless it succeeded with non-empty output, and then carries the digest after `Transaction Digest: ` if present and the package id after `Package ID: `, else from the created-objects table, else its own |
| MoveManifest.SuiLine | api/src/main.rs:107 | the Sui dependency line opens no section |
| MoveManifest.BaseHeaders | api/src/main.rs:101-108 | the base manifest's lines open exactly `package` then `dependencies` |
| MoveManifest.ManifestLines | api/src/main.rs:101-113 | the base manifest with text appended splits into the base lines followed by the text's own lines |
| MoveManifest.ManifestHeaders | api/src/main.rs:101-113 | the sections of the base manifest plus appended text are `package`, `dependencies`, then the text's sections in order |
| MoveManifest.SplitEndedText | api/src/main.rs:101-127 | newline-free lines joined and ended by a newline split back into those lines and one empty piece |
| MoveManifest.DefaultAddressHeaders | api/src/main.rs:122-127 | the default addresses text opens exactly one section, `addresses` |
| ApiServer.CommandArgs | api/src/main.rs:312-313 | the command is refused iff it has fewer than two white-space tokens or the first is not `sui`; otherwise the arguments are the tokens after `sui` |
| ApiServer.SplitSpaced | api/src/main.rs:312 | tokens joined by single spaces split back into the same tokens |
| ApiServer.ArgsAfterSui | api/src/main.rs:312-325 | a command whose tokens are `sui` and a non-empty tail runs `sui` with that tail |
| ApiServer.TestCommandAccepted | api/src/main.rs:441-453 | the hook's test command for a one-token path passes the check and runs `sui move test --path <path>` |
| ApiServer.DeployCommandAccepted | api/src/main.rs:312-325 | the hook's publish command for a one-token path passes the check and runs `sui client publish <path> --gas-budget 100000000` |
| ApiServer.FirstHex | api/src/main.rs:339 | no token is found iff none starts with `0x`; a found token is one of the line's tokens and starts with `0x` |
| ApiServer.IdOnLine | api/src/main.rs:339 | an id found on a line is one of its white-space tokens and starts with `0x` |
| ApiServer.FirstIdIn | api/src/main.rs:336-343 | nothing is found iff no line names the package and holds a `0x` token; otherwise the id comes from the first such line |
| ApiServer.ScanPackageId | api/src/main.rs:335-344 | the loop with its early break yields the first `0x` token of the first line naming a package id that has one |
| ApiServer.FirstQualifyingIs | api/src/main.rs:336-343 | the first qualifying line is characterised by no earlier line qualifying |
| ApiServer.DeployHandler | api/src/main.rs:308-363 | a refused command is a BadRequest with the fixed message and runs nothing; a spawn failure is an internal error; otherwise the reply holds the exit status, both streams under their labels, stderr as the error iff the run failed, and the scanned package id |
| ApiServer.TestHandler | api/src/main.rs:437-477 | the same command check; a finished run replies with its status, the output under the two headings and stderr as the error iff it failed |
| ApiServer.AssembleManifest | api/src/main.rs:100-129 | no addresses text appends the default addresses; a blank one appends nothing; any other is appended as given |
| ApiServer.DefaultManifestWellFormed | api/src/main.rs:101-127 | the manifest written without an addresses text passes the section check |
| ApiServer.BareManifestWellFormed | api/src/main.rs:101-118 | the manifest written for a blank addresses text passes the section check |
| ApiServer.ValidNotBlank | api/src/main.rs:112 | a manifest that passes the section check is never blank |
| ApiServer.EditorManifestRepeats | api/src/main.rs:111-113 | a manifest the playground accepts, appended after the server's base, always yields a repeated section |
| ApiServer.AssembledHeaders | api/src/main.rs:100-129 | the written Move.toml's sections: package, dependencies and addresses by default; package and dependencies for a blank text; otherwise those two followed by the text's sections |
| ApiServer.UserUnitsMembers | api/src/main.rs:170-191 | the kept units are exactly those whose name contains `hello` or starts with `examples::` |
| ApiServer.DefaultNameNotUser | api/src/main.rs:209 | a `Module_<n>` name never passes the user-module filter |
| ApiServer.DefaultNameInjective | api/src/main.rs:209 | different indices give different default names |
| ApiServer.DefaultNamesFresh | api/src/main.rs:201-216 | every default name differs from every other reported name |
| ApiServer.NameModules | api/src/main.rs:155-229 | every bytecode is returned; names and sizes are the user units' then `Module_<n>` with 1024 for each bytecode beyond them, of equal length; each bytecode goes to `<name>.mv` |
| ApiServer.KeepUserModules | api/src/main.rs:170-191 | the kept names and sizes are those of the compiled units whose name contains `hello` or starts with `examples::`, in order, one size per name |
| ApiServer.NameAt | api/src/main.rs:205-214 | the `idx`-th bytecode is named by the list entry at `idx`; the list grows to cover `idx` only by `Module_<idx+1>` with size 1024, so the user units keep their names and sizes, every later entry is a default name with 1024, and earlier entries are unchanged |
| ApiServer.CompileError | api/src/main.rs:263-272 | a failed compile reply carries only the message: no bytecode, names, sizes, warnings, time or path |
| ApiServer.CompileHandler | api/src/main.rs:254-305 | the file name defaults to `main.move`; the manifest is the assembled one; a failed write is an internal error, a failed build an OK reply with the prefixed message, and a build reports its bytecodes, names and sizes, no warnings, the time and the package path |
| ApiServer.ParseCommandLine | api/src/main.rs:479-532 | the loop's outcome and the reported arguments are those of the one-option-at-a-time reading of the arguments |
| ApiServer.ThenThen | api/src/main.rs:490-511 | reading options in two steps is reading the merged options once |
| ApiServer.WalkAppend | api/src/main.rs:490-511 | reading a parsed run of options and then more equals merging the two readings |
| ApiServer.LastSourceWins | api/src/main.rs:493-497 | the last source option decides the path |
| ApiServer.SourceNeedsValue | api/src/main.rs:494-499 | a source option as the last argument is an error whatever came before |
| ApiServer.UnknownSkipped | api/src/main.rs:506-509 | an unknown argument is reported and changes nothing else |
| CliOptions.ParseDeps | api/cli.rs:37-41 | one path per comma-separated piece (commas + 1), path i being piece i trimmed of white space at both ends, so none holds a comma or is padded |
| CliOptions.ParseDepsJoin | api/cli.rs:37-41 | comma-free unpadded paths joined by commas parse back to the same paths |
| CliOptions.ParseDepsPadded | api/cli.rs:37-41 | comma-free paths padded with any white space on either side and joined by commas parse back to the unpadded paths |
| CliOptions.AddressEntry | api/cli.rs:46-58 | the `filter_map` closure of `parse_addresses`; no contract of its own: its effect is stated by `EntryMeaning` |
| CliOptions.EntryMeaning | api/cli.rs:46-58 | a piece yields a pair iff it holds exactly one `=` and its trimmed right side parses; the pair is the trimmed name and the parsed address |
| CliOptions.ParseAddresses | api/cli.rs:43-60 | `parse_addresses`; no contract of its own: its effect is stated by `PairSource`, `ParseAddressesAppend` and `ParseOneAddress` |
| CliOptions.PairSource | api/cli.rs:43-60 | every parsed pair comes from one comma-separated piece with exactly one `=` |
| CliOptions.ParseAddressesAppend | api/cli.rs:43-60 | the pairs of two comma-joined lists are the pairs of the first followed by those of the second |
| CliOptions.ParseOneAddress | api/cli.rs:43-60 | `name=address` with no commas, `=` or padding on either side parses to exactly that pair |
| ResultPanel.TableMatchFrom | components/result/result-panel.tsx:14 | the position returned is the leftmost one where `redefinition of table \`<word chars>\`` matches, and no match means none exists |
| ResultPanel.Captured | components/result/result-panel.tsx:14-15 | the captured table name is a non-empty run of word characters sitting between the backquotes of the match |
| ResultPanel.TableName | components/result/result-panel.tsx:14-15 | no match gives `unknown`; otherwise the name captured at the leftmost match |
| ResultPanel.Classify | components/result/result-panel.tsx:11-69 | a redefinition message shows the duplicate-section view with its table name; a manifest parse failure without redefinition shows the parse view; anything else is shown verbatim |
| ResultPanel.NamedTable | components/result/result-panel.tsx:13-15 | a message whose first match names a table is classified as a duplicate of exactly that table |
| ResultPanel.UnnamedTable | components/result/result-panel.tsx:13-15 | a redefinition message without a backquote names the table `unknown` |
| ResultPanel.RelayedDuplicate | components/result/result-panel.tsx:13 | a build failure the server relays with its prefixes is still classified as a duplicate section |
| ResultPanel.ModuleRows | components/result/result-panel.tsx:185-196 | one row per module name, in order, with the size at the same index when there is one |
| ResultPanel.BytecodeCards | components/result/result-panel.tsx:198-215 | one card per bytecode, in order, captioned by the module name at the same index when there is one |
| ResultPanel.CompileReport | components/result/result-panel.tsx:163-249 | the time, modules and bytecodes are shown iff the compile succeeded; the error block iff it failed with a non-empty message, classified; warnings always |
| ResultPanel.ServiceErrorShown | components/result/result-panel.tsx:218-228 | a failure record with a non-empty message shows that message classified and no modules |
| ResultPanel.BuiltReportComplete | components/result/result-panel.tsx:185-215 | after a build every module row has a size and every bytecode card a caption |
| ResultPanel.TestReport | components/result/result-panel.tsx:277-325 | counts, status and details are shown as stored; the output block iff the output is non-empty |
| ResultPanel.DeployReport | components/result/result-panel.tsx:353-511 | the expanded layout iff the panel is expanded and the deploy succeeded with output; package id and digest shown when non-empty; the compact layout shows the error when non-empty and the output only on success |
| ResultPanel.OutputShownEitherWay | components/result/result-panel.tsx:354-502 | in either layout the full output is shown iff the deploy succeeded with non-empty output |
| ResultPanel.ExpandingKeepsContent | components/result/result-panel.tsx:354-511 | expanding the panel changes only the layout and hides the error block; without output to show it changes nothing |
| ResultPanel.CompilePanel | components/result/result-panel.tsx:137-162 | a spinner iff compiling, the placeholder iff idle with no result, else the report of the stored result |
| ResultPanel.TestPanel | components/result/result-panel.tsx:251-276 | a spinner iff testing, the placeholder iff idle with no result, else the report of the stored result |
| ResultPanel.DeployPanel | components/result/result-panel.tsx:327-351 | a spinner iff deploying, the placeholder iff idle with no result, else the report for the stored result and expansion |
| ResultPanel.PanelsFollowStore | components/result/result-panel.tsx:137-351 | a loading action shows the spinner and a landing result shows its report |
| ResultPanel.ToggleOnlyTouchesDeploy | components/result/result-panel.tsx:80-88 | toggling the panel's expansion leaves the compile and test panels as they were |
| FileManager.TypeOf | components/sidebar/file-manager.tsx:33 | `.move` names are Move files, other `.toml` names are Toml, everything else Markdown |
| FileManager.TypeOfExtension | components/sidebar/file-manager.tsx:33 | the extension alone decides the type, whatever precedes it |
| FileManager.PaddedNameIsMarkdown | components/sidebar/file-manager.tsx:31-33 | the name is not trimmed before its type is read, so a trailing space makes a Markdown file |
| FileManager.NewFile | components/sidebar/file-manager.tsx:34-43 | the new file is named and placed by the typed name, typed by it, and holds the Move template only when it is a Move file |
| FileManager.UploadedFile | components/sidebar/file-manager.tsx:56-66 | an uploaded file keeps the picked file's name and content, typed by its name |
| FileManager.AddThenSelect | components/sidebar/file-manager.tsx:44-45 | adding then selecting appends the file, makes it active and changes nothing else |
| FileManager.FileManager.constructor | components/sidebar/file-manager.tsx:14-17 | the form starts hidden with an empty name |
| FileManager.FileManager.OpenNewFile | components/sidebar/file-manager.tsx:78-84 | the New File button shows the input and changes nothing else |
| FileManager.FileManager.TypeName | components/sidebar/file-manager.tsx:96-101 | typing replaces the name and changes nothing else |
| FileManager.FileManager.Escape | components/sidebar/file-manager.tsx:102-105 | Escape hides the input and keeps the typed name |
| FileManager.FileManager.CreateNewFile | components/sidebar/file-manager.tsx:30-48 | a blank name changes nothing; otherwise the new file is appended and made active, and the input is cleared and hidden |
| FileManager.FileManager.HandleFileUpload | components/sidebar/file-manager.tsx:50-72 | with no file picked nothing changes; otherwise the uploaded file is appended and made active; the name input is untouched |
| FileManager.FileManager.Select | components/sidebar/file-manager.tsx:132 | clicking a file makes it the active file and changes nothing else |
| FileManager.FileManager.Delete | components/sidebar/file-manager.tsx:145-148 | the delete entry removes the file as the store's delete does |
| ExampleSelector.Bundled | components/sidebar/example-selector.tsx:10-206 | three examples, each with exactly one file holding its source |
| ExampleSelector.BundledIdsDistinct | components/sidebar/example-selector.tsx:10-206 | the bundled examples have pairwise different ids |
| ExampleSelector.LoadedIdInjective | components/sidebar/example-selector.tsx:213 | different example and index pairs give different file ids |
| ExampleSelector.LoadedFiles | components/sidebar/example-selector.tsx:212-219 | one Move file per example file, in order, with the example's name, path and content and the id built from the example id and its index |
| ExampleSelector.LoadedIdsDistinct | components/sidebar/example-selector.tsx:212-219 | within one load no two files share an id |
| ExampleSelector.LoadsNeverCollide | components/sidebar/example-selector.tsx:213 | files loaded from examples with different ids never share an id |
| ExampleSelector.LoadExample | components/sidebar/example-selector.tsx:210-225 | the file list becomes the loaded files; the first is made active when there is one, the selection is kept otherwise; nothing else changes |
| JsText.TrimPadded | lib/providers/playground-provider.tsx:45 | trimming text padded on both sides with JavaScript white space gives back the unpadded text |
| JsText.SplitJoin | lib/providers/playground-provider.tsx:45 | splitting a join of separator-free pieces gives the pieces back |
| RustText.SplitWhitespace | api/src/main.rs:312 | the tokens are the maximal runs of non-white-space characters, in order |
| RustText.Lines | api/src/main.rs:336 | the lines of the text, each without its line terminator |
| Decimal.ShowInjective | api/src/main.rs:209 | different numbers print differently in decimal |
| JsText.BlankIffAllSpace | components/sidebar/file-manager.tsx:31 | a string trims to empty iff every character is JavaScript white space |
| RustText.BlankIffWhitespace | api/src/main.rs:112 | a string trims to empty iff every character is Unicode white space |
| RustText.TrimPadded | api/cli.rs:39 | trimming unpadded text padded on both sides with Unicode white space gives the unpadded text back |

## Left out

- **Presentation.**
  - Toasts, icons, class names and the JSX markup are not modelled.
  - The panels are modelled as the data each view shows.
  - `SaveConfig` keeps the toast's title and text because they are the whole effect of the button.
- **Asynchrony and I/O are parameters** (`Reply`, `Run`, `Written`, `Build`):
  - the awaited service calls, `FileReader`, `localStorage`, `setTimeout` with `confirm` and `reload`;
  - the clock (`Date.now`, `new Date`, `Instant`, `Local::now`);
  - process spawning, the file system and the Sui build.
  - The interleaving of concurrent actions is not modelled: each action runs to completion.
- **Ids and timestamps are fresh values supplied by the caller.** These are `generateId()`, the `Date.now()` ids and the `lastModified` dates.
- **Foreign parsers are function parameters.**
  - `NumericalAddress::parse_str` is one.
  - The `Created Objects` table regex of `deployContract` is another, consulted exactly where the source consults it.
- `JsText.ToLower`: models only ASCII lower-casing.
  - This is exact for the literal comparisons with `[addresses]`, `[dev-addresses]` and `0x0`.
  - For the conflict check's grouping key it is an approximation of the full Unicode `toLowerCase`.
- **Unrecognised actions.** Both reducers' `default: return state` branch is not modelled, because the modelled action type is closed and every action has its own case.
- **The `catch` of the configuration validators.** It returns `配置格式错误` and is unreachable: nothing in the `try` block throws on a string. It is not modelled.
- **The command line.**
  - `compile_single_file` (reading the file, printing the modules) is not modelled.
  - Of the argument loop, the `eprintln!` texts and the exit codes are reduced to the `Invocation` outcome and the list of reported arguments.
- `ApiServer.NameModules`: the base64 decoding and the writing of each `.mv` file are left out. The method returns the target file names, and a failed decode or write only prints a message in the source.
- `ApiServer.NameModules`: the size estimate is unbounded. The `usize` arithmetic of `estimated_size` is treated as not overflowing.
- **Built units are input sequences.** The compiled units, their counts and the encoded bytecodes in `compile_move_code` are supplied as inputs.
- **Routing and the web-serving side** are not modelled. This covers actix routing, CORS and static files.
- **The `Gas Used` block of `DeployResults`** is not modelled. The deploy record the store holds has no `gasUsed` field.
- **The example Move sources are abstract parameters** (`ExampleSelector.Bundled`). Only the ids, titles and file names are fixed.
- `ResultPanel.CompileReport`: the module rows and bytecode cards show the stored fields. Base64 text is not decoded or measured.
