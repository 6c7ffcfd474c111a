# INCAR generator — a Dafny model

The INCAR generator is a small web application. Its pages let a user pick VASP calculation
"tasks" (a functional, a van der Waals correction, model and system switches, a
calculation type) and switch standard parameter sections on or off. The user may also type
custom `KEY = value` rows. A Flask server then renders an INCAR text from the parameter
tables of the selected tasks, the enabled sections and the custom rows.

This project models the logic of the three core files:

- the selection rules of the main page (`static/js/main.js`), as pure functions in
  `Constraints` and as the class `MainPage.Session`, whose fields are the page's
  module-level state;
- the main page's request assembly and response interpretation (`Client`, `MainPage`);
- the server's task table, task lookup, request merge, INCAR renderer and the pure cores of
  the three calculators (`Catalog`, `Server`, `Render`, `Calculators`), from `app.py`;
- the simplified page (`static/js/main_simple.js`), in `SimplePage`.

Python dicts and JavaScript objects built in the code keep their insertion order and have
no key twice. (Reply objects are the exception: Flask's `jsonify` sorts their keys.) They
are modelled as `Dicts.Dict<V>`, a sequence of pairs with distinct keys. `Dicts.Put`
models `d[k] = v`, `Dicts.Update` models `d.update(e)`, and `Dicts.AsMap` gives the
key-to-value view. JSON values the pages read are `Json.Value`, and JavaScript's
`undefined` is `None`.

Each loop of the source is a `method` whose `ensures` ties its result to a specification
function. The properties the source promises are proved about those functions as lemmas.

Modules:

| file | module | what it holds |
|---|---|---|
| wrappers.dfy | Wrappers | `Option` |
| text.dfy | Text | Python/JavaScript string operations: case mapping, strip, replace, split, join, decimal formatting, string order |
| dicts.dfy | Dicts | ordered dictionaries |
| json.dfy | Json | JSON values, field access, truthiness, string conversion |
| constraints.dfy | Constraints | the selection rules and the invariant they keep |
| client.dfy | Client | custom-parameter rows, derived values, response interpretation, ids and labels |
| render.dfy | Render | the organised and the flat INCAR text |
| server.dfy | Server | task lookup, `/api/task-params`, `/api/standard-params`, `/api/generate-incar` |
| catalog.dfy | Catalog | the task table built at start-up, `AVAILABLE_TASKS`, `TASK_KEYS` |
| calculators.dfy | Calculators | DFT+U columns, MAGMOM terms, NEB image count |
| mainpage.dfy | MainPage | the main page's state and handlers |
| simple.dfy | SimplePage | the simplified page |

## Model

| member | source | states |
|---|---|---|
| Text.Lower | app.py:139 | Python `lower()`: same length, and each character is lower-cased (ASCII letters) |
| Text.Upper | static/js/main.js:456 | JavaScript `toUpperCase()`: same length, and each character is upper-cased |
| Text.Title | app.py:54 | Python `title()` keeps the length and every non-letter |
| Text.TitleWords | app.py:54 | after `title()`, a letter is upper case exactly when it starts a word, and lower case otherwise |
| Text.Capitalize | app.py:51 | Python `capitalize()`: the first character upper-cased, the rest lower-cased, same length |
| Text.RStrip | app.py:336 | `rstrip()` gives a prefix that ends in no whitespace, and only whitespace was removed |
| Text.LStrip | app.py:134 | `lstrip()` gives a suffix that starts with no whitespace, and only whitespace was removed |
| Text.Strip | app.py:134 | `strip()` gives the slice of the text between a run of leading and a run of trailing whitespace, and that slice neither starts nor ends with whitespace |
| Text.StripEmpty | app.py:212 | a stripped key is empty exactly when the key is all whitespace |
| Text.ReplaceAll | app.py:41 | `str.replace` changes nothing when the pattern does not occur |
| Text.ReplaceAllSplitJoin | app.py:41 | `s.replace(pat, rep)` is `rep.join(s.split(pat))`: every non-overlapping occurrence, scanning left to right, becomes `rep` and the text between occurrences is kept |
| Text.ReplaceFirst | static/js/main_simple.js:103 | JavaScript `replace` with a string pattern: no change without an occurrence, and a leading occurrence is replaced |
| Text.ReplaceFirstAt | static/js/main_simple.js:103 | when the pattern first occurs at index `i`, the result is the text before `i`, the replacement, then the text after the occurrence |
| Text.ReplaceAllShape | app.py:320 | replacing `_` by a space keeps the length and leaves no `_` |
| Text.ReplaceAllChars | app.py:62 | after replacing a one-character pattern, every character is an untouched character of the input or comes from the replacement |
| Text.SplitOn | static/js/main.js:631 | `split` always yields at least one piece |
| Text.SplitOnContains | app.py:50 | splitting yields two or more pieces exactly when the separator occurs |
| Text.JoinSplit | app.py:336 | joining the pieces of a split with the same separator gives back the text |
| Text.SplitCount | static/js/main.js:631 | splitting on `'\n'` yields one piece more than the text has newlines |
| Text.CountJoin | app.py:274 | joining newline-free lines with `'\n'` puts one newline between each two lines |
| Text.NatToString | app.py:496 | `str(n)` is a non-empty string of decimal digits with no leading zero |
| Text.ParseNatToString | app.py:496 | reading `str(n)` back as a decimal number gives `n` |
| Text.LessIrreflexive | app.py:315 | the order `sorted` uses on strings is irreflexive |
| Text.LessAsymmetric | app.py:315 | the order `sorted` uses on strings is asymmetric |
| Text.LessTotal | app.py:315 | any two different strings are ordered one way or the other |
| Text.LessTransitive | app.py:315 | the order `sorted` uses on strings is transitive |
| Dicts.AsMap | app.py:213 | the key-to-value view of assignments in order has exactly their keys |
| Dicts.AsMapLast | app.py:211-213 | the last assignment to a key decides its value |
| Dicts.AsMapLastWins | app.py:211-213 | every key's value comes from the last pair that carries it |
| Dicts.AsMapAt | app.py:234-238 | in a dict, every entry's value is the value looked up under its key |
| Dicts.SamePairsSameMap | app.py:315 | two dicts holding the same pairs look up the same values |
| Dicts.KeysCount | app.py:223-224 | `len(d)` is the number of distinct keys |
| Dicts.Replace | app.py:457 | assigning to an existing key keeps every position and every key |
| Dicts.ReplaceKeys | app.py:457 | assigning to an existing key keeps the key set |
| Dicts.ReplaceMap | app.py:457 | assigning to an existing key changes only that key's value |
| Dicts.Put | app.py:213 | `d[k] = v`: `k` added to the keys and mapped to `v`; an existing key keeps its place, and a new key is appended |
| Dicts.Update | app.py:229 | `d.update(e)`: the keys of both, and the values of `e` win |
| Dicts.UpdateSnoc | app.py:229 | updating with one more pair is one more assignment |
| Dicts.UpdateDisjoint | app.py:207-208 | updating with a dict of new keys only appends its entries |
| Dicts.FilterOut | app.py:300 | a dict comprehension that drops keys keeps exactly the other keys |
| Dicts.FilterOutMap | app.py:317 | dropping keys removes exactly them from the key-to-value view |
| Dicts.InsertByKey | app.py:303 | inserting into a sorted list keeps it sorted and adds exactly the new pair |
| Dicts.SortByKey | app.py:315 | `sorted(d.items())` is sorted by key and is a permutation of the entries |
| Dicts.SortByKeyMap | app.py:315 | sorting keeps the keys and the values |
| Json.Get | static/js/main.js:611 | `data.name` is defined exactly when the object has the field, and then it is the field's value |
| Constraints.Filter | static/js/main.js:109-112 | `Array.filter`: keeps exactly the elements the predicate accepts, never grows |
| Constraints.FilterAppend | static/js/main.js:109-112 | filtering a concatenation filters each part, in order |
| Constraints.FilterNoDups | static/js/main.js:109-112 | filtering a list with no repeats gives a list with no repeats |
| Constraints.AddMulti | static/js/main.js:184-220 | a multi-select add: the task is appended, then Frequency drops NCORE, NCORE drops Frequency, and a calculation type drops the other group members that have buttons |
| Constraints.Select | static/js/main.js:141-237 | a Functional click gives the old tasks outside Functional, in their order, followed by the clicked one; a vdW click gives the old non-vdW tasks, in their order, followed by the clicked one; re-clicking an active task gives the old selection with it filtered out (strictly shorter); any other click is `AddMulti` |
| Constraints.Trigger | static/js/main.js:222-235 | a calculator starts only on a multi-select add: DFT+U starts the DFT+U calculation, ISPIN the MAGMOM one, NEB the IMAGES one |
| Constraints.Clear | static/js/main.js:101-112 | clearing a category keeps exactly the selected tasks whose button exists and belongs to another category |
| Constraints.ClearKeepsOrder | static/js/main.js:101-112 | clearing a concatenation clears each part in turn, and a single task survives exactly when it has a button in another category; so the survivors keep their order |
| Constraints.DefaultSelection | static/js/main.js:77-90 | the start-up selection is PBE, NCORE, LAPACK, WRITE in that order, each present exactly when its button exists |
| Constraints.DefaultsDistinct | static/js/main.js:77 | the default buttons are pairwise different |
| Constraints.DefaultsConsistent | static/js/main.js:77-90 | the start-up selection satisfies the selection invariant |
| Constraints.SubsetConsistent | static/js/main.js:109-112 | removing tasks from a consistent selection keeps it consistent |
| Constraints.FilterConsistent | static/js/main.js:109-112 | a filtered consistent selection is consistent |
| Constraints.ClearConsistent | static/js/main.js:101-112 | clearing a category keeps the selection consistent |
| Constraints.AppendFunctionalConsistent | static/js/main.js:158-163 | appending a functional after all functionals were removed keeps consistency |
| Constraints.AppendVdwConsistent | static/js/main.js:177-178 | appending a vdW correction after all vdW corrections were removed keeps consistency |
| Constraints.SelectConsistent | static/js/main.js:141-237 | every click on an existing button keeps the invariant: each selected task has a button, none twice, at most one functional, one vdW correction and one calculation type, never Frequency with NCORE |
| Constraints.AddMultiConsistent | static/js/main.js:184-220 | a multi-select add keeps the invariant |
| Constraints.FunctionalIdempotent | static/js/main.js:147-163 | selecting the same functional twice is the same as selecting it once |
| Constraints.VdwIdempotent | static/js/main.js:164-178 | re-selecting the active vdW correction keeps it selected, and a second identical click changes nothing |
| Constraints.ToggleRoundTrip | static/js/main.js:181-187 | a task outside every conflict rule is appended by one click and removed by the next, restoring the selection |
| Constraints.ConflictPair | static/js/main.js:188-204 | after a multi-select add, Frequency and NCORE are never both selected |
| Constraints.GroupExclusive | static/js/main.js:206-220 | after adding a calculation type, it is the only one selected |
| Constraints.GroupKeepsOrder | static/js/main.js:206-220 | adding a calculation type other than Frequency keeps the tasks outside the group, in their order |
| Constraints.FrequencyKeepsOrder | static/js/main.js:188-220 | adding Frequency keeps the tasks outside the group, in their order, less NCORE |
| Client.Accepted | static/js/main.js:537-547 | every row with both boxes filled gives its pair, and every pair comes from such a row |
| Client.RowOverridesView | static/js/main.js:537-547 | the custom object holds exactly the keys of the filled rows, each with the value of the last row carrying it |
| Client.LaterRowWins | static/js/main.js:544 | a later row with the same key overwrites an earlier one |
| Client.EmptyRowSkipped | static/js/main.js:543 | a row with an empty box changes nothing |
| Client.DerivedAsMap | static/js/main.js:549-562 | the cached values written are LDAUL/LDAUU/LDAUJ when DFT+U is selected and cached, MAGMOM when ISPIN is selected and the cache is non-empty, IMAGES likewise for NEB |
| Client.CustomParams | static/js/main.js:537-562 | the `custom_params` object has the row keys and the derived keys, and derived values overwrite rows |
| Client.CustomParamsView | static/js/main.js:537-562 | the `custom_params` view is the rows' view with the derived values written over it |
| Client.DerivedOver | static/js/main.js:549-562 | which keys the cached values set, and to what, over any base |
| Client.CachedValuesWin | static/js/main.js:549-562 | a cached value overwrites a row with the same key whenever its task is selected |
| Client.RowValuesKept | static/js/main.js:549-562 | without its task (or a usable cache) a derived key keeps the row's value, and non-derived row keys always do |
| Client.Display | static/js/main.js:604-635 | an `error` field gives the error outcome; otherwise a missing or empty `incar_content` gives the empty-result outcome; otherwise the text is shown with the parameter count and newlines + 1 lines |
| Client.SectionLabel | static/js/main.js:456 | the label is the key without its leading `d_`, underscores made spaces, upper case; no lower-case letter and no `_` remain |
| Client.ReplaceFirstShorter | static/js/main.js:456 | removing the first `d_` never lengthens the key |
| Client.ButtonId | static/js/main.js:66 | the id is `btn-` followed by the task with whitespace and hyphens made `_`, lower-cased |
| Client.ConflictButtonIds | static/js/main.js:190 | the ids the conflict rules look up are `btn-ncore` and `btn-frequency` |
| Render.EntryLines | app.py:303-305 | one `key = value` line per entry, the i-th line for the i-th entry |
| Render.AllBlockLinesAppend | app.py:297-333 | the lines of blocks in a row are the lines of each block, in a row |
| Render.TaskKeyUnion | app.py:291-294 | `task_param_keys` holds every key of every task |
| Render.TaskKeyUnionSound | app.py:291-294 | `task_param_keys` holds nothing but keys of the tasks |
| Render.TaskBlockOf | app.py:298-306 | a task gives one block exactly when its parameters less the custom keys are non-empty; the block is under the task's header and holds exactly those parameters, with their values, sorted by key |
| Render.BlockEntries | app.py:300-303 | a block's entries are the parameters less the dropped keys, with their values, sorted by key; empty exactly when nothing is left |
| Render.StandardBlockOf | app.py:315-325 | a section gives one block exactly when its parameters less task and custom keys are non-empty; the block holds exactly those parameters, with their values, sorted by key |
| Render.TaskBlocks | app.py:297-306 | at most one block per task; each is a task block with sorted, non-empty entries and no custom key |
| Render.StandardBlocks | app.py:315-325 | at most one block per section, each a section block of an included section with sorted, non-empty entries none of which is dropped |
| Render.StandardBlocksAppend | app.py:315-325 | the blocks of two section lists in a row are the blocks of each, in a row |
| Render.StandardBlocksComplete | app.py:315-325 | the blocks are those of the sections before `j`, then section `j`'s own block when anything of it is left, then those after; so each non-empty section has its block, in section order |
| Render.Organized | app.py:277-337 | the text starts with `SYSTEM = Generated By Q_robot` and never ends in whitespace |
| Render.BlankLineAfterSystem | app.py:284-285 | when any block is rendered, the SYSTEM line is followed by a blank line and a header |
| Render.AppendEntries | app.py:303-305 | the entry loop appends exactly the entries' lines |
| Render.AppendBlock | app.py:302-306 | a block appends its header, its lines and a blank line |
| Render.CollectTaskKeys | app.py:291-294 | the key loop collects exactly `task_param_keys` |
| Render.AppendTaskBlocks | app.py:297-306 | the task loop appends the lines of the task blocks, in order |
| Render.AppendStandardBlocks | app.py:315-325 | the section loop appends the lines of the section blocks, in order |
| Render.RenderOrganized | app.py:277-337 | the rendered text is `Organized`, and the caller's sections lose `d_system` |
| Render.TaskBlocksAppend | app.py:297-306 | the blocks of two task lists in a row are the blocks of each |
| Render.TaskBlocksComplete | app.py:297-306 | every task whose parameters less the custom keys are non-empty has its own block among the task blocks, even when another task's block has the same keys |
| Render.SharedKeyTwice | app.py:297-306 | a key two tasks define and the custom rows do not override is written in two different task blocks |
| Render.TaskBlocksPrefix | app.py:297-306 | the blocks of the first tasks begin the blocks of all tasks |
| Render.TaskBlocksSound | app.py:297-306 | every task block is the block of one of the tasks |
| Render.StandardBlocksOrdered | app.py:315 | sections taken in key order give blocks in strictly increasing section order |
| Render.RenderedSectionsOrder | app.py:311-315 | standard sections appear in increasing key order, each at most once, and never `d_system` |
| Render.BlockLinesShown | app.py:302-306 | a block among the layout's blocks has its header line and each of its `key = value` lines in their text |
| Render.LayoutBlockShown | app.py:302-306 | a block of the layout puts its header and, for each of its parameters, the line `key = value` with that parameter's value into the INCAR lines |
| Render.TaskShown | app.py:297-306 | a selected task with a parameter the custom parameters do not override shows up in the INCAR lines: its `# Task: name` header and that parameter's `key = value` line, with the task's value |
| Render.RenderedSectionAt | app.py:311-315 | every section other than `d_system` stands among the rendered sections, with its own parameters |
| Render.SectionShown | app.py:311-325 | an enabled section other than `d_system` with a parameter that no task and no custom row defines shows up in the INCAR lines: its `# Standard Parameters - …` header and that parameter's `key = value` line, with the section's value |
| Render.CustomPrecedence | app.py:288-333 | no task or standard block holds a custom key; the custom block is last and holds exactly the custom parameters, sorted |
| Render.TaskPrecedence | app.py:317 | no standard block holds a key that any selected task defines |
| Render.BlocksSortedNonEmpty | app.py:301-325 | every emitted block has at least one entry, in increasing key order |
| Render.FlatHeaderOneLine | app.py:266 | the flat header is a single line |
| Render.EntryLinesNoNewline | app.py:270-272 | keys and values without newlines give lines without newlines |
| Render.FlatLineCount | app.py:263-274 | the flat text has one line per parameter after the header and a blank line |
| Server.FirstMatch | app.py:138-141 | the lookup gives the index of the first entry whose display name equals the name ignoring case, or none |
| Server.FirstMatchUnique | app.py:138-141 | only one index is the first match |
| Server.FirstMatchCaseInsensitive | app.py:139 | names that agree ignoring case find the same entry |
| Server.FindTask | app.py:137-141 | the lookup loop finds the first match |
| Server.TaskParamsReply | app.py:130-147 | an unknown task is answered `Invalid task: ` followed by the stripped name |
| Server.LookupParams | app.py:137-147 | the lookup of an already stripped name fails only with that message |
| Server.TaskParamsFound | app.py:137-147 | a request succeeds only with the parameters of an entry whose display name matches, and fails whenever no entry matches |
| Server.GetTaskParams | app.py:130-147 | the handler answers `TaskParamsReply` |
| Server.TaskParamsCaseInsensitive | app.py:134-141 | names that agree ignoring case get the same answer |
| Server.StandardParams | app.py:150-159 | every standard section except `d_lapack`, `d_ncore` and `d_write`, with its parameters |
| Server.IncludedSectionsSpec | app.py:176-178 | a section is included exactly when it exists and some switch turns it on, and it keeps the table's parameters |
| Server.Resolve | app.py:185-204 | a name contributes nothing exactly when it is empty, has no case-insensitive match, or its first match has an empty key; otherwise the entry of its first match, which its own display name finds again |
| Server.LayersByCategory | app.py:197-204 | every name in the model layer finds an entry of a category other than `Tasks`, and every name in the `Tasks` layer one of category `Tasks` |
| Server.LayersDisjoint | app.py:197-204 | no display name is in both layers |
| Server.ModelBlocksFirst | app.py:206-208 | blocks of the other categories come before the blocks of `Tasks` |
| Server.UnknownIgnored | app.py:186-197 | unknown names contribute nothing, wherever they stand |
| Server.LayersCaseInsensitive | app.py:191 | selections that agree name by name, ignoring case, give the same layers |
| Server.StrippedEntries | app.py:211-213 | each custom entry with key and value stripped |
| Server.PutNonEmptyKeySound | app.py:211-213 | every stored key is the non-empty key of some entry |
| Server.PutNonEmptyKeyComplete | app.py:211-213 | every non-empty key is stored |
| Server.PutNonEmptyLastWins | app.py:211-213 | each stored value is that of the last entry with the key |
| Server.CustomLayerKeySound | app.py:211-213 | every custom key is a stripped request key, non-empty and without surrounding whitespace |
| Server.CustomLayerKeyComplete | app.py:211-213 | every non-empty stripped key is in the custom layer |
| Server.CustomLayerLastWins | app.py:211-213 | the custom layer holds the stripped value of the last entry with the key |
| Server.MergeInto | app.py:227-232 | the merged map is the base with every dictionary written over it in turn, later ones winning |
| Server.ParamsWithinCount | app.py:223-232 | the returned map has no more keys than `param_count` says |
| Server.ParamsLayers | app.py:227-232 | in the returned map, tasks apply first, then custom, then the remaining standard sections (standard values win) |
| Server.MergeLayers | app.py:227-232 | the merge is the union of the three layers in that order |
| Server.MergeLoop | app.py:228-229 | the update loop computes `MergeInto` |
| Server.CollectSections | app.py:176-178 | the section loop collects the included sections |
| Server.CollectLayers | app.py:185-208 | the selection loop builds the two layers |
| Server.ResolveName | app.py:186-204 | one name's lookup gives `Resolve` |
| Server.CollectCustom | app.py:211-213 | the custom loop builds the custom layer |
| Server.Respond | app.py:216-238 | the reply's text, count and merged map |
| Server.MergeAll | app.py:227-232 | the merge loops compute the three-layer merge |
| Server.GenerateIncar | app.py:162-238 | the handler answers `Generate` for the request |
| Server.Payload | app.py:234-238 | the reply object has exactly `incar_content`, `param_count` and `params` |
| Catalog.ReadableName | app.py:39-54 | the display name of a task key, failing exactly where the `ml` branch finds no second piece |
| Catalog.ReadableNameForms | app.py:43-54 | a vdW stem with `bj` or `zero` gets its fixed name, and one with neither keeps the stem; an `ml` stem becomes `ML-` plus the capitalised second piece of its split on `ml`; any other stem keeps its length and loses its underscores |
| Catalog.BaseMapping | app.py:38-59 | one entry per task key, in the data's order |
| Catalog.BaseEntries | app.py:56-59 | each base entry carries the readable name, the task's parameters and no category |
| Catalog.FailurePersists | app.py:39-51 | once one key fails, start-up fails |
| Catalog.MergeCategory | app.py:66-71 | merging a category adds its task names to the table's keys |
| Catalog.MergeCategoryEntry | app.py:66-71 | a listed name gets itself as display name, the configured parameters and the category |
| Catalog.MergeCategoryOthers | app.py:66-71 | names a category does not list keep their entry |
| Catalog.MergeConfigKeys | app.py:65-71 | the table holds exactly the task keys and the configured names |
| Catalog.ConfiguredEntry | app.py:65-71 | a configured name's entry comes from the last category listing it |
| Catalog.UnconfiguredEntry | app.py:65-71 | a key no category lists keeps its base entry |
| Catalog.BuildTaskMapping | app.py:38-71 | the start-up loops build `TaskMapping` |
| Catalog.BuildBase | app.py:38-59 | the key loop builds `BaseMapping` |
| Catalog.MergeCategoryLoop | app.py:66-71 | the loop over a category builds `MergeCategory` |
| Catalog.AvailableTasks | app.py:73 | one display name per table entry |
| Catalog.AvailableTasksOrder | app.py:73 | the i-th name is the display name of the i-th smallest key |
| Catalog.TaskKey | app.py:74 | the normalised name has no space, hyphen or upper-case letter |
| Catalog.TaskKeyChars | app.py:74 | the normalised name is the display name character by character: hyphens dropped, spaces made `_`, letters lower-cased |
| Catalog.TaskKeyPairs | app.py:74 | one (normalised name, key) pair per entry |
| Catalog.TaskKeysIndex | app.py:74 | a normalised name maps to the key of the last entry with that name |
| Catalog.TaskKeysSound | app.py:74 | every name in the index is the normalised display name of some entry |
| Calculators.FirstStructure | app.py:399-431 | the symbols of the first candidate that reads, none when none reads |
| Calculators.FirstStructureAt | app.py:401-405 | when candidate k is the first that reads, its symbols are used |
| Calculators.Distinct | app.py:407-412 | the distinct elements, no repeats, exactly the elements that occur |
| Calculators.DistinctOrder | app.py:410-412 | the distinct elements come in order of first occurrence |
| Calculators.Column | app.py:413-420 | one column entry per distinct element |
| Calculators.DftUColumns | app.py:407-421 | the element loop gives the distinct elements and three equally long columns: LDAUL 2 or -1, U the value or 0, J the value only with both U and J, else 0 |
| Calculators.CalculateDftU | app.py:390-431 | the handler answers `DftUReplyOf`, or `POSCAR file not found` |
| Calculators.CountsAreOccurrences | app.py:454-459 | each symbol's count is its number of occurrences, and only symbols that occur are counted |
| Calculators.CountsOrder | app.py:454-459 | the counted symbols come in order of first occurrence |
| Calculators.CountSymbols | app.py:454-459 | the counting loop computes `Counts` |
| Calculators.MagmomTerms | app.py:461-464 | one term per counted element |
| Calculators.MagmomTermsMeaning | app.py:454-466 | the i-th term is `count*moment` of the i-th distinct element |
| Calculators.FormatTerms | app.py:461-464 | the term loop computes `MagmomTerms` |
| Calculators.CalculateMagmom | app.py:437-475 | the handler answers `MagmomReplyOf`, or `POSCAR file not found` |
| Calculators.ImageFolders | app.py:487 | exactly the two-character, all-digit folder names, each as often as it is listed |
| Calculators.NebImagesOf | app.py:481-500 | succeeds exactly when some image folder exists; IMAGES is max(n - 2, 0) in decimal digits, with the folder count n; otherwise the fixed error |
| Calculators.NebIgnoresOtherEntries | app.py:485-490 | directory entries that are not image folders change neither the folders counted nor the reply |
| MainPage.SectionBoxes | static/js/main.js:438-452 | one checked box per standard section except `d_system`, and nothing else |
| MainPage.SectionBoxesInOrder | static/js/main.js:438-452 | the boxes follow the sections one by one in arrival order: one checked box per section, none for `d_system` |
| MainPage.Flags | static/js/main.js:524-530 | the boxes read are those with a non-empty key |
| MainPage.FlagsFrom | static/js/main.js:527 | every box read has a non-empty key and is one of the page's boxes |
| MainPage.SectionFlagsLastWins | static/js/main.js:524-530 | each section's value in `include_sections` is the state of the last box carrying its key |
| MainPage.FlagsLastWins | static/js/main.js:528 | the last box with a key decides its value |
| MainPage.FlagsKeys | static/js/main.js:527 | only non-empty keys of existing boxes reach the object |
| MainPage.Unchecked | static/js/main.js:708-711 | the reset unchecks every box and keeps its key |
| MainPage.UncheckedFlagsOff | static/js/main.js:708-711 | after the reset every section in the request is switched off |
| MainPage.ResetRows | static/js/main.js:714-723 | the reset leaves at most one row, and one exactly when there was one |
| MainPage.ResetRequestEmpty | static/js/main.js:537-562 | after the reset the request carries no custom parameter, whatever the caches hold |
| MainPage.DisplayReply | static/js/main.js:604-635 | every server reply is shown in full: its text, its parameter count and its number of lines |
| MainPage.GeneratedNonEmpty | app.py:284-285 | the generated text is never empty |
| MainPage.DisplayPayload | static/js/main.js:619-631 | a reply with text is shown, never treated as an error or as empty |
| MainPage.JoinedKeysSound | static/js/main.js:338 | every joined key comes from a response that arrived |
| MainPage.JoinedKeysComplete | static/js/main.js:338 | every key of an arrived response is joined |
| MainPage.JoinedLastWins | static/js/main.js:338 | a key's value comes from the last response holding it |
| MainPage.Session.constructor | static/js/main.js:3-4 | the page starts with nothing selected, no caches, every section box checked and the preview empty |
| MainPage.Session.InitializeDefaults | static/js/main.js:77-90 | the default buttons that exist are pushed, and the selection is consistent |
| MainPage.Session.DefaultButtons | static/js/main.js:77-90 | the default loop pushes `DefaultSelection` |
| MainPage.Session.SelectTask | static/js/main.js:141-241 | the selection becomes `Select`, the calculator started is `Trigger`, and the invariant is kept |
| MainPage.Session.ClearCategory | static/js/main.js:101-112 | the selection becomes `Clear`, and the invariant is kept |
| MainPage.Session.LoadTaskParameters | static/js/main.js:313-354 | `currentParams` is emptied for no names, is the join once every response came back, and otherwise is unchanged |
| MainPage.Session.ReceiveDftU | static/js/main.js:252-263 | a successful DFT+U reply is cached, a failure keeps the cache |
| MainPage.Session.ReceiveMagmom | static/js/main.js:277-284 | a successful MAGMOM reply is cached, a failure keeps the cache |
| MainPage.Session.ReceiveNebImages | static/js/main.js:298-305 | a successful IMAGES reply is cached, a failure keeps the cache |
| MainPage.Session.RowParams | static/js/main.js:533-547 | the row loop builds the row overrides |
| MainPage.Session.AddDerived | static/js/main.js:549-562 | the cached values are written over the rows' object |
| MainPage.Session.IncludeFlags | static/js/main.js:519-530 | the checkbox loop builds `include_sections` |
| MainPage.Session.GenerateRequest | static/js/main.js:514-568 | the request body: the selection, the section switches, the custom parameters |
| MainPage.Session.ShowResponse | static/js/main.js:604-635 | the preview shows the outcome's text, and the download button is enabled only when the text is shown |
| MainPage.Session.UncheckAll | static/js/main.js:708-711 | every box is unchecked |
| MainPage.Session.ResetForm | static/js/main.js:696-732 | unconfirmed, nothing changes; confirmed, the selection, boxes, rows, preview, download button and loaded parameters are cleared, the caches are kept, and the invariant holds |
| SimplePage.Added | static/js/main_simple.js:121-123 | the name is appended only if absent: the old list is a prefix, nothing is removed, no repeats arise |
| SimplePage.AddedIdempotent | static/js/main_simple.js:121-123 | selecting the same name twice is the same as once |
| SimplePage.TaskParamsRequest | static/js/main_simple.js:134-143 | no request for an empty selection, otherwise for the last selected task |
| SimplePage.ClickRequests | static/js/main_simple.js:118-143 | after a click the request is for the clicked task only when it was new |
| SimplePage.SectionLabel | static/js/main_simple.js:103 | the label of a `d_`-prefixed key is the rest of the key upper-cased; without `d_` the key upper-cased; never a lower-case letter |
| SimplePage.SectionLabelFirstOccurrence | static/js/main_simple.js:103 | only the first `d_` is removed, wherever it stands; later ones stay |
| SimplePage.PreviewAsWritten | static/js/main_simple.js:196 | as written, the preview shows `result.incar`, or the fallback when it is missing or empty |
| SimplePage.AsWrittenAlwaysFallback | static/js/main_simple.js:196 | as written, every server reply shows the fallback |
| SimplePage.Preview | static/js/main_simple.js:196 | the preview read from `incar_content`: the text, or the fallback when it is missing or empty |
| SimplePage.PreviewShowsReply | static/js/main_simple.js:177-196 | read from `incar_content`, the preview shows exactly the generated text |
| SimplePage.PreviewPayload | static/js/main_simple.js:196 | a reply with text is shown as it is |
| SimplePage.RequestHasOnlyTasks | static/js/main_simple.js:180-184 | the request renders only the selected tasks' blocks: no sections and no custom parameters |
| SimplePage.Session.constructor | static/js/main_simple.js:118 | the page starts with nothing selected and an empty preview |
| SimplePage.Session.SelectTask | static/js/main_simple.js:118-143 | the selection becomes `Added`, and the request is for the last selected task |
| SimplePage.Session.GenerateBody | static/js/main_simple.js:180-184 | the body holds the selection, no custom parameters and no section switches |
| SimplePage.Session.ShowResult | static/js/main_simple.js:193-197 | as written: the preview becomes `PreviewAsWritten` of the reply, read from the `incar` field, which every server reply lacks (see Findings) |

## Left out

- The DOM is not modelled: button elements, CSS classes, `innerHTML`, `alert` and `confirm`. A button's "active" class is modelled as membership in the selection. Whether a button exists is modelled as the task being a key of the catalog map.
- The parameter views are left out: `displayTaskParams`, the section contents of `displayStandardParameters`, and the simplified page's parameter list. Only the section checkboxes and their states are modelled.
- The page-building code is left out: `initializeTaskCategories` and `get_task_categories`. The catalog of buttons is a model input.
- `fetch`, Flask routing, CORS, `send_file`, `/figs`, `/health`, `/api/download-incar`, download and clipboard are I/O. Server replies enter the page model as arguments.
- Asynchrony is left out. `loadTaskParameters` is modelled with the arrival order as an input sequence. Overlapping loads and late calculator replies are not modelled.
- POSCAR reading with ASE and `os.listdir` / `os.path.isfile` are filesystem I/O. The calculators take the per-candidate read results and the folder names as inputs.
- The outer `except` handlers of the calculators are not modelled.
- `HAS_DATA_MODULE` is always true, so the "data module not available" branches are never taken. They are not modelled.
- The data tables `standard_incar`, `tasks_incar`, `u_value`, `j_value`, `mag_value` and `task_config.json` are model parameters.
- Numeric table values (U, J, magnetic moments, `0.0`) are opaque strings. Float formatting is not modelled.
- Case mapping, whitespace and `isdigit` follow their ASCII part only.
- Flask's `jsonify` sorts the keys of every reply object by default, so the sections of `/api/standard-params` and the parameters of `/api/task-params` arrive in key order. The model takes reply objects in the order given and does not model that sorting. JavaScript's rule that integer-like keys come first is not modelled either.
- The first assignment of `AVAILABLE_TASKS` and `TASK_KEYS` (app.py:61-62) is overwritten before use. It is not modelled separately.
- Catalog.ReadableName: an exception at import time (the `ml` branch with a single piece) is modelled as `None`, and start-up as failed.
- Constraints.Select: the catalog is assumed to reflect the buttons. Two tasks whose ids collide after `replace(/[\s-]/g, '_').toLowerCase()` are not modelled.
- Constraints.AddMulti: the group loop at static/js/main.js:211-219 is modelled as one filter over all rivals that have a button. This gives the same result, because each member is removed only when its button exists and is active, which is membership.
- Client.Display: when `incar_content` is truthy but not a string, the source throws after writing the preview. The model returns `NotText` with the shown value and says nothing about the later exception.
- run.py and `__init__.py` are not part of this model.

## Findings

| source | as written | input that shows it | evidently intended | confidence | as-written member | corrected member |
|---|---|---|---|---|---|---|
| static/js/main_simple.js:196 | the preview reads `result.incar`, a field the server never sends | any successful `/api/generate-incar` reply, e.g. for tasks `["PBE"]` | read `result.incar_content`, the field app.py:235 sends | not executed | SimplePage.AsWrittenAlwaysFallback | SimplePage.PreviewShowsReply |
