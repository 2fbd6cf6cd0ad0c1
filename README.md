# sceneChecker in Dafny

A model of the deterministic core of sceneChecker, a Maya plugin that checks a scene against a
configurable set of rules, reports the offending objects per rule, and can apply a corrective.
The Maya scene queries and the Qt widgets are replaced by plain inputs; what remains is modelled
and proved:

- **The check runner** (`SceneChecker.run_checks` / `cancel`, module `Runner`). It walks the
  selected check records in order and asks the progress callback before each one; a `False`
  answer cancels the run. It looks each record's `"function"` up in a registry; an unknown name
  adds nothing. It keeps only results whose `count` exceeds 0, and flattens list results in list
  order. A check function that raises (the `KeyError` for a missing `"severity"`) is not caught,
  so it ends the run.
  - The class method `RunChecks` is proved against `RunFrom`, the loop stated step by step.
  - `RunFromIsRun` shows that `RunFrom` equals `Run`: stop at the first refusal, or fail at the
    first raising check.
  - Lemmas about `Run` state the properties: check order, prefix under cancellation, unknown
    names, and no cancellation without a callback.
- **Correctives** (`adjust_*`, module `Adjust`). Each returns `False` exactly for an empty list.
  It is modelled by the host commands it issues.
  - Item parsing of `adjust_unused_influences`: the item is split on `" -> "` and must give
    exactly two parts.
  - `check_unused_influences`: builds those items.
  - The round trip between the two is proved exactly. The counterexample lemma shows that names
    merely lacking `" -> "` are not enough.
- **Naming rules** (`check_naming_issues`, `check_bg_naming_convention`, module `Naming`).
  - Every rule judges an object by its short name, the text after the last `|`.
  - Cameras are excluded.
  - Default-name prefixes and invalid characters: each rule lists exactly the objects that
    fail it.
  - Duplicate counting goes through the insertion-ordered `name_count` dictionary.
  - The BG grammar `^[a-zA-Z]{4}_[a-zA-Z]{1,10}_\d{3}$`. Python's `$` also matches before a
    final newline, and the model keeps that.
- **Batch mode** (`run_batch_check`, `export_to_csv`, `batch_check_multiple_files`, module
  `Batch`).
  - Every item of every category is flattened into a record without `"severity"`.
  - The CSV rows are modelled as sequences of cells.
  - The output name is chosen with `posixpath` semantics (module `Paths`).
  - The multi-scene loop keeps the paths of the scenes that complete, in order, and skips those
    that raise. Each scene is checked on the scene Maya has open when the loop reaches it, so an
    empty entry is checked on the scene the loop opened last.
  - Host effects are modelled as a `Host` value of answers, and failures as a `Result`.
- **Check selection** (`load_check_config`, `CheckCategoryWidget`, `CheckSelectorUI`, module
  `Selector`).
  - The configuration falls back to a default when it is missing or unreadable.
  - Each category widget is a class whose checkbox states are an array.
  - `toggle_select_all` updates that array in place.
  - The window is a class holding its widgets and the run button's empty-selection guard.

Python's `None` and an absent key are `Option.None`. An empty `output_csv`, `scene_file` or
`output_dir` counts as not given, as it does in Python's truthiness tests.

Two behaviours of the source that a caller might not expect, which the model keeps:
- `run_checks` does not isolate a raising check function: the exception ends the run. The
  model returns it as `Failure`.
- A per-item corrective (`adjust_zero_edge_length`, `adjust_negative_scale`,
  `adjust_unused_influences`) returns `True` for any non-empty list, even when every host command
  fails, because each command sits in a `try/except: pass`.

Modules: `Wrappers` (Option, Result), `Seqs` (comprehensions as `Gather`), `Strings` (Python
`str` operations used by the source), `Paths`, `Records`, `Runner`, `Adjust`, `Naming`, `Batch`,
`Selector`.

## Model

| member | source | states |
|---|---|---|
| `Records.CategoriesOf` | sceneChecker/batch.py:36 | a configuration without "categories" has none |
| `Records.RecordReport` | sceneChecker/checker.py:599-608 | no items gives None; items with a record lacking "severity" raise KeyError; otherwise one result with findings whose items are the items found |
| `Runner.KeptEntries` | sceneChecker/checker.py:704-707 | every entry kept from a list result has count > 0, and no more entries are kept than the list holds |
| `Runner.AllKept` | sceneChecker/checker.py:704-707 | a list whose entries all have findings is kept whole, in list order |
| `Runner.KeptEntriesMember` | sceneChecker/checker.py:704-707 | an entry is kept exactly when it is present among the entries and has count > 0 |
| `Runner.Reported` | sceneChecker/checker.py:701-709 | what one check adds has count > 0; None and a raised exception add nothing |
| `Runner.ReportedMember` | sceneChecker/checker.py:701-709 | a check adds a result exactly when the result has count > 0 and is the dictionary returned or an entry of the list returned |
| `Runner.Collect` | sceneChecker/checker.py:687-709 | every collected result has count > 0 |
| `Runner.CollectMember` | sceneChecker/checker.py:687-709 | a result is collected from the first n checks exactly when one of them added it |
| `Runner.CollectExactly` | sceneChecker/checker.py:687-709 | a result is collected exactly when it has count > 0 and one of the first n checks returned it, alone or in its list |
| `Runner.FirstRefusal` | sceneChecker/checker.py:693-697 | the callback accepted every check before the first refusal and refused that one |
| `Runner.FirstRaise` | sceneChecker/checker.py:700-702 | no check before the first exception raises, and that one does |
| `Runner.RunFrom` | sceneChecker/checker.py:687-711 | results gathered so far are never dropped: they stay a prefix of the final list |
| `Runner.ProceedStep` | sceneChecker/checker.py:693-697 | an accepted check moves the first refusal past it |
| `Runner.NoRaiseStep` | sceneChecker/checker.py:700-702 | a check that does not raise moves the first exception past it |
| `Runner.RunRefused` | sceneChecker/checker.py:695-697 | a refusal at check i ends the run cancelled with exactly the results of checks 0..i-1 |
| `Runner.RunRaised` | sceneChecker/checker.py:702 | a raising check ends the run with the exception and the results gathered before it |
| `Runner.RunFinished` | sceneChecker/checker.py:687-711 | a run that gets through every check is not cancelled and holds every check's results |
| `Runner.RunFromMatchesRun` | sceneChecker/checker.py:687-711 | the step-by-step loop agrees with the declarative run from every point it reaches |
| `Runner.RunFromIsRun` | sceneChecker/checker.py:683-711 | a run from a fresh start is the declarative run |
| `Runner.CollectPrefix` | sceneChecker/checker.py:687-709 | results appear in check order: those of fewer checks are a prefix of those of more |
| `Runner.NoProgressRunsAll` | sceneChecker/checker.py:693 | without a callback no check is refused |
| `Runner.NoProgressNeverCancels` | sceneChecker/checker.py:693-697 | a run without a callback is never cancelled |
| `Runner.FirstRaiseMonotone` | sceneChecker/checker.py:700-702 | the first exception before a later limit is no earlier |
| `Runner.RunResults` | sceneChecker/checker.py:687-711 | a run keeps the results of exactly the checks before its first exception or refusal |
| `Runner.CancelKeepsPrefix` | sceneChecker/checker.py:693-697 | whatever the callback answers, the results are a prefix of the uncancelled run's results |
| `Runner.RefusalAt` | sceneChecker/checker.py:685-697 | a refusal before check k, after accepted non-raising checks, leaves exactly the results of checks 0..k-1, cancelled |
| `Runner.CollectIgnoresLater` | sceneChecker/checker.py:687-709 | the results of the first k checks do not depend on later checks |
| `Runner.UnregisteredAddsNothing` | sceneChecker/checker.py:700-701 | a record naming no registered function adds nothing, raises nothing, and the loop goes on |
| `Runner.SceneChecker.constructor` | sceneChecker/checker.py:671-673 | a new checker has no results and is not cancelled |
| `Runner.SceneChecker.Cancel` | sceneChecker/checker.py:713-715 | cancel sets the flag and leaves the results alone |
| `Runner.SceneChecker.RunChecks` | sceneChecker/checker.py:675-711 | the new results and flag are those of the run from a fresh start, whatever the state before (so an earlier cancel has no effect); the result list is returned unless a check raised |
| `Runner.SceneChecker.Append` | sceneChecker/checker.py:702-709 | appends a result with findings, or a list's entries with findings in list order, and leaves the flag alone |
| `Adjust.InfluenceCalls` | sceneChecker/checker.py:91-96 | an item gives at most one removal |
| `Adjust.InfluenceCallsExactly` | sceneChecker/checker.py:93-96 | an item makes the corrective remove influence i from skin cluster s exactly when it is the check's item `s -> i` and splitting it gives (s, i) back; every other item issues nothing |
| `Adjust.Plan` | sceneChecker/checker.py:14-100 | an empty list issues nothing; the selection-based correctives select exactly the items and then act once |
| `Adjust.Apply` | sceneChecker/checker.py:14-100 | returns False exactly when the list is empty, True otherwise, and issues exactly the planned commands |
| `Adjust.OneCallPerItem` | sceneChecker/checker.py:23-35 | edge merging and scale fixing issue one command per item, in item order, addressed to that item |
| `Adjust.InfluenceRoundTrip` | sceneChecker/checker.py:93-96 | splitting `skin -> influence` gives the pair back if and only if no separator starts inside `skin + " -> "` before the joining one and `influence` holds none |
| `Adjust.InfluenceRoundTripNoSpace` | sceneChecker/checker.py:93-96 | names without spaces, as Maya node names are, always come back |
| `Adjust.ArrowSuffixBreaksRoundTrip` | sceneChecker/checker.py:93-96 | a skin name ending in " ->" is split one separator early |
| `Adjust.InfluenceItems` | sceneChecker/checker.py:595 | one item per unused pair, in order, each `skin -> influence` |
| `Adjust.InfluenceCallsOfItem` | sceneChecker/checker.py:93-97 | the corrective removes the influence named in a space-free item |
| `Adjust.AdjustRemovesReported` | sceneChecker/checker.py:87-100 | the corrective removes exactly the reported influences, in report order |
| `Adjust.CheckUnusedInfluences` | sceneChecker/checker.py:583-608 | the result lists one item per unused pair, counts them, carries the corrective, and raises for a record without "severity" |
| `Adjust.CheckThenAdjust` | sceneChecker/checker.py:595-606 | running the corrective on the check's own result removes each reported influence once |
| `Naming.ShortNameIsLastPart` | sceneChecker/checker.py:366 | the short name is the last part of the long name split at each vertical bar |
| `Naming.ShortNameOfChild` | sceneChecker/checker.py:366 | the short name of a child is its own name, whatever its parent path |
| `Naming.CamerasExcluded` | sceneChecker/checker.py:360 | exactly the transforms that are not cameras are judged |
| `Naming.MatchesDefaultPrefix` | sceneChecker/checker.py:366-370 | the prefix loop succeeds exactly when the short name starts with one of the seven prefixes |
| `Naming.DefaultUpToIsGather` | sceneChecker/checker.py:365-370 | the default-name loop is the comprehension of the objects with a default short name |
| `Naming.DefaultNames` | sceneChecker/checker.py:363-370 | lists the objects with a default short name, in order |
| `Naming.InvalidCharNames` | sceneChecker/checker.py:405-409 | lists the objects whose short name holds a space, '.', '-', ':' or ';', in order |
| `Naming.ParentPathIgnored` | sceneChecker/checker.py:366-368 | both rules look only at the short name, never at the parent path |
| `Naming.DefaultNamesListed` | sceneChecker/checker.py:360-370 | an object is listed under "Default Names" if and only if it is a non-camera transform with a default short name, once when long names are unique |
| `Naming.InvalidNamesListed` | sceneChecker/checker.py:405-409 | an object is listed under "Invalid Characters" if and only if it is a non-camera transform whose short name holds an invalid character, once when long names are unique |
| `Naming.CandidatesDistinct` | sceneChecker/checker.py:360 | leaving out cameras keeps long names unique |
| `Naming.ShortNames` | sceneChecker/checker.py:383 | one short name per object, in order |
| `Naming.OccurrencesPositive` | sceneChecker/checker.py:385-386 | a name occurs exactly when it sits at some index |
| `Naming.CountsAreOccurrences` | sceneChecker/checker.py:384-386 | the dictionary holds exactly the names that occur, each with its number of occurrences |
| `Naming.KeysAreOccurring` | sceneChecker/checker.py:384-386 | the dictionary's keys are exactly the names that occur |
| `Naming.KeysDistinct` | sceneChecker/checker.py:384-386 | each name is a key once, in first-occurrence order |
| `Naming.CountNames` | sceneChecker/checker.py:384-386 | the counting loop builds the insertion-ordered dictionary |
| `Naming.DuplicateNames` | sceneChecker/checker.py:388-392 | the loop extends the list by the long names of each repeated key, in key order |
| `Naming.DuplicatesMember` | sceneChecker/checker.py:388-392 | a name is listed exactly when some repeated key's lookup returns it |
| `Naming.RepeatedKeyOccurs` | sceneChecker/checker.py:389-390 | a key counted more than once is a name occurring more than once |
| `Naming.OccurringNameIsKey` | sceneChecker/checker.py:389-390 | a name occurring more than once is a key counted more than once |
| `Naming.DuplicatesListed` | sceneChecker/checker.py:383-392 | "Duplicate Names" lists what the scene returns for exactly the short names that occur more than once among non-camera transforms |
| `Naming.NamingIssues` | sceneChecker/checker.py:354-421 | the check returns the list of the three reports for the scene, never None and never an exception |
| `Naming.IssuesKept` | sceneChecker/checker.py:372-419 | every entry is a result with findings whose count is its number of items and which has no corrective, so the runner keeps the whole list in order |
| `Naming.IssuesOrder` | sceneChecker/checker.py:372-419 | one report per non-empty list; each report is "Default Names" (warning), "Duplicate Names" (error) or "Invalid Characters" (warning) with that list as its items; they come in the order default, duplicate, invalid, so "Default Names" comes first exactly when it is present |
| `Naming.DefaultNamesReported` | sceneChecker/checker.py:363-380 | "Default Names" is reported exactly when some non-camera transform has a default short name |
| `Naming.BgNameConforms` | sceneChecker/checker.py:442 | a name built from a four-letter area, a model name of 1-10 letters and a three-digit id matches and gives its parts back |
| `Naming.BgCoreParts` | sceneChecker/checker.py:442 | a matching name splits into valid parts and is rebuilt from them |
| `Naming.BgCoreIsBgName` | sceneChecker/checker.py:442 | a name matches the pattern body if and only if it is `{area}_{modelname}_{id}` with valid parts |
| `Naming.TrailingNewlineMatches` | sceneChecker/checker.py:442-446 | a matching name followed by a newline still passes, because `$` matches before it |
| `Naming.AnnotatedInjective` | sceneChecker/checker.py:447 | different objects give different annotated items |
| `Naming.BgViolations` | sceneChecker/checker.py:444-447 | lists the annotated objects whose short name does not match, in order |
| `Naming.CheckBgNaming` | sceneChecker/checker.py:424-458 | None when every object conforms; otherwise one "error" result named and described by the record, counting the annotated items |
| `Naming.BgViolationsListed` | sceneChecker/checker.py:437-447 | an object appears, annotated, exactly when it is a non-camera transform whose short name does not conform, and once when long names are unique |
| `Naming.BgViolationsDistinct` | sceneChecker/checker.py:440-447 | objects listed once give annotated items listed once |
| `Batch.BatchRecord` | sceneChecker/batch.py:38-43 | a batch record carries the category and the item's name and description, no severity, and the item's function, else "" |
| `Batch.ItemRecords` | sceneChecker/batch.py:37-43 | one record per item |
| `Batch.SelectAllChecks` | sceneChecker/batch.py:35-43 | the loop collects every item's record, categories in file order and then items in order |
| `Batch.AllRecordsAt` | sceneChecker/batch.py:35-43 | item j of category i is record number (items of categories before i) + j, so every item is selected once, in order |
| `Batch.AllRecordsLength` | sceneChecker/batch.py:35-43 | one record per item of the configuration |
| `Batch.TotalItemsMonotone` | sceneChecker/batch.py:36-37 | more categories hold at least as many items |
| `Batch.ItemRecordsAt` | sceneChecker/batch.py:37-43 | item j gives record j of its category |
| `Batch.AllRecordsLackSeverity` | sceneChecker/batch.py:38-43 | no batch record carries a severity |
| `Batch.BatchSeverityReadersRaise` | sceneChecker/batch.py:38-47 | a check that copies "severity" from a batch record raises as soon as it finds something |
| `Batch.BatchAndSelectedRecords` | sceneChecker/batch.py:38-43 | a batch record differs from the selection window's record for the same item only in the severity |
| `Batch.Row` | sceneChecker/batch.py:79-88 | a row has exactly the header's five cells |
| `Batch.RowsUpTo` | sceneChecker/batch.py:78-88 | one row per result |
| `Batch.ExportRows` | sceneChecker/batch.py:64-88 | the rows written are the header and then the row of each result |
| `Batch.TableRows` | sceneChecker/batch.py:78-88 | the k-th row is the row of the k-th result |
| `Batch.TableShape` | sceneChecker/batch.py:75-88 | the table is the header followed by one row per result, in result order; no results give the header alone |
| `Batch.RowRoundTrip` | sceneChecker/batch.py:81-88 | the count cell reads back as the count, and the items cell splits back into the items when no item holds a newline |
| `Batch.RowCells` | sceneChecker/batch.py:79-88 | each cell is the result's value for its key, or "" for a missing name, severity or description, 0 for a missing count, "" for missing or empty items, and the items joined by newlines otherwise |
| `Batch.RunBatchCheck` | sceneChecker/batch.py:14-61 | a missing or unopenable scene fails first; otherwise every check of the configuration runs without a callback on the scene then open (the one opened, else the one open before), a raising check fails, and the table of the results is written to the given path or one named after the open scene; the scene left open is the one opened, else the one open before |
| `Batch.MissingSceneFirst` | sceneChecker/batch.py:26-28 | a scene path that does not exist fails with "not found" whatever the configuration, the checks and the scene open |
| `Batch.DefaultOutputName` | sceneChecker/batch.py:50-56 | without an output path the file is named after the name Maya reports for the open scene (the one opened, else the one open before): `<stem>_check_results.csv`, or `untitled_check_results.csv`, without a directory part |
| `Batch.GivenOutputUsed` | sceneChecker/batch.py:50 | a given output path is the one written |
| `Batch.WrittenRows` | sceneChecker/batch.py:45-59 | the file written holds the header and one row per result of the run, in order |
| `Batch.CompletedUpTo` | sceneChecker/batch.py:104-127 | the paths of the passes that completed, in pass order: no more paths than scenes |
| `Batch.CheckScene` | sceneChecker/batch.py:107-124 | one scene, checked on the scene the earlier passes left open, gives its output path when creating the directory and the batch check succeed, else nothing; the scene it opened, if any, is left open |
| `Batch.CompletedStep` | sceneChecker/batch.py:119-124 | one more scene appends its path at the end, only when it completed, and leaves open what it opened |
| `Batch.CollectScene` | sceneChecker/batch.py:106-124 | one pass of the loop extends the list of completed paths by that scene's and carries the open scene on |
| `Batch.BatchCheckMultipleFiles` | sceneChecker/batch.py:93-127 | returns the paths of the scenes that completed, in scene order, each checked on the scene the passes before it left open; a failing scene does not stop the loop |
| `Batch.LastOpenedScene` | sceneChecker/batch.py:26-29 | after a pass that opened its scene, that scene stays open until a later pass opens another |
| `Batch.NothingOpenedYet` | sceneChecker/batch.py:26-29 | until some pass opens a scene, the scene open before the call stays open |
| `Batch.EmptyEntryAfterOpened` | sceneChecker/batch.py:106-120 | an empty entry opens nothing and is checked, and written, on the scene the entry before it opened |
| `Batch.SceneOutputPath` | sceneChecker/batch.py:109-120 | a completed scene's path is its output path, named `<stem>_check_results.csv` after the scene |
| `Batch.CompletedMember` | sceneChecker/batch.py:104-127 | a path is returned exactly when some scene, checked on the scene left open before it, completed with it |
| `Batch.FailedSceneSkipped` | sceneChecker/batch.py:124-125 | a failing scene adds nothing |
| `Batch.MissingSceneSkipped` | sceneChecker/batch.py:119 | a scene file that does not exist never completes, whatever scene is open |
| `Paths.BasenameNoSlash` | sceneChecker/batch.py:111 | a base name holds no '/' |
| `Paths.Dirname` | sceneChecker/batch.py:114 | the directory name is a prefix of the head, shorter only by trailing '/', and ends with '/' only when it is all slashes |
| `Paths.JoinEndsWith` | sceneChecker/batch.py:112 | a join ends with its second part, and is that part alone when it is absolute |
| `Paths.BasenameOfJoin` | sceneChecker/batch.py:112 | the base name of a join is the joined name when it holds no '/' |
| `Paths.DirnameBasenameJoin` | sceneChecker/batch.py:114-116 | a path whose last '/' follows another character is the join of its directory name and base name |
| `Paths.ExtStart` | sceneChecker/batch.py:111 | the split point lies within the path, on a '.' unless at the end |
| `Paths.Root` | sceneChecker/batch.py:111 | the root is a prefix of the path |
| `Paths.Ext` | sceneChecker/batch.py:111 | root and extension make up the path |
| `Paths.ExtShape` | sceneChecker/batch.py:111 | an extension is empty or one '.' followed by characters that are neither '.' nor '/' |
| `Paths.RootWithoutDot` | sceneChecker/batch.py:111 | a name without '.' has no extension |
| `Paths.RootLeadingDots` | sceneChecker/batch.py:111 | leading dots do not start an extension |
| `Paths.RootCutsExtension` | sceneChecker/batch.py:111 | "stem.ext" loses exactly ".ext" |
| `Paths.StemNoSlash` | sceneChecker/batch.py:111 | a scene name holds no '/' |
| `Paths.CsvName` | sceneChecker/batch.py:112 | every result file name ends with "_check_results.csv" |
| `Paths.CsvNameNoSlash` | sceneChecker/batch.py:112 | a result file name built from a scene name holds no '/' |
| `Paths.DefaultCsvNameIsLocal` | sceneChecker/batch.py:51-56 | the default output is a result file name without a directory part |
| `Paths.OutputPathBasename` | sceneChecker/batch.py:109-116 | wherever it goes, the output file is named after the scene's file name |
| `Paths.DirnameOfJoin` | sceneChecker/batch.py:114 | the directory name of "dir/name" is "dir" |
| `Paths.StemOfJoin` | sceneChecker/batch.py:115 | the scene name of "dir/name" is the root of "name" |
| `Paths.JoinInsertsSlash` | sceneChecker/batch.py:116 | joining a relative name to a directory not ending in '/' inserts one '/' |
| `Paths.OutputBesideScene` | sceneChecker/batch.py:113-116 | without an output directory the result of "dir/name" goes to "dir", named after the root of "name" |
| `Selector.LoadCheckConfig` | sceneChecker/check_selector.py:16-38 | the parsed file when there is one, else the default configuration |
| `Selector.FallbackHasNoCategories` | sceneChecker/check_selector.py:21-38 | the fallback configuration has no categories |
| `Selector.SelectedRecord` | sceneChecker/check_selector.py:240-246 | a selected record carries the widget's category and the item's name and description; its severity is the item's, else "warning", and its function the item's, else "" |
| `Selector.SelectedUpTo` | sceneChecker/check_selector.py:237-247 | no more records than items |
| `Selector.SelectedMember` | sceneChecker/check_selector.py:238-246 | a record is selected exactly when it is the record of a checked item |
| `Selector.AllCheckedSelectsAll` | sceneChecker/check_selector.py:238-246 | with every box checked, each item gives its record, in item order |
| `Selector.NoneCheckedSelectsNothing` | sceneChecker/check_selector.py:238-246 | with no box checked nothing is selected |
| `Selector.CategoryWidget.constructor` | sceneChecker/check_selector.py:102-110 | one checkbox per item, all checked, and the button reads "すべて選択" |
| `Selector.CategoryWidget.ToggleSelectAll` | sceneChecker/check_selector.py:226-233 | if any box was checked all become unchecked, otherwise all become checked; the label becomes "すべて解除" exactly when none was checked |
| `Selector.CategoryWidget.GetSelectedChecks` | sceneChecker/check_selector.py:235-247 | the records of the checked items, in item order |
| `Selector.UniformSelection` | sceneChecker/check_selector.py:228-230 | after a toggle a widget selects all its items or none |
| `Selector.CheckSelectorUI.constructor` | sceneChecker/check_selector.py:253-271 | one new widget per category of the loaded configuration, in file order, every box checked, no two widgets sharing checkboxes |
| `Selector.CheckSelectorUI.GetSelectedChecks` | sceneChecker/check_selector.py:364-369 | the widgets' selections concatenated in category order |
| `Selector.CheckSelectorUI.OnRunClicked` | sceneChecker/check_selector.py:371-389 | with an empty selection only the warning is shown: no callback, window stays open; otherwise the selection goes to the callback, if any, and the window closes |
| `Selector.SelectionMember` | sceneChecker/check_selector.py:366-368 | a record is selected by the window exactly when some widget selects it |
| `Selector.FallbackRunOnlyWarns` | sceneChecker/check_selector.py:16-38 | a window opened on a missing or unreadable configuration has no categories, and pressing run only shows the warning: no callback call, the window stays open |
| `Selector.DeselectCategory` | sceneChecker/check_selector.py:226-233 | in a newly opened window, pressing one category's select-all button clears that category and leaves every other category fully selected |

## Left out

- Maya scene queries are inputs of the model, not calls. These are `cmds.ls`, `nodeType`,
  `listRelatives` and the skin cluster weight queries. They appear as `Naming.Scene`, the unused
  (skin, influence) pairs, and each check function's fixed answer in the registry.
- Check functions that change the scene while a run is in progress are not modelled: each run
  sees one fixed scene.
- The other check functions (geometry, UV, textures, transforms, joints, skin weights,
  animation keys, shaders) are not part of this model. The registry stands for them as total
  functions from a record to None, a result, a list or a `KeyError`. Other exceptions from
  check functions are not modelled.
- Correctives are modelled by the commands they issue, not by what those commands do to the
  scene.
  - The per-axis logic of `adjust_negative_scale` (`getAttr`, `setAttr`, `polyNormal`) is one
    `FixNegativeScale` command.
  - The vertex conversion of `adjust_zero_edge_length` is one `MergeEdgeVertices` command.
  - Host failures inside their `try/except: pass` are not observable, so they are not modelled.
  - The selection-based correctives (`adjust_lamina_faces`, `adjust_ngons`,
    `adjust_zero_area_faces`, `adjust_non_frozen_transforms`) call `cmds.select` and their
    command outside any `try`; a host failure there raises out of the corrective. That exception
    is not modelled: the model assumes the host accepts both commands.
- Floating-point thresholds are not modelled, because they compare host data. These are the
  unused-influence weight sum `< 0.0001` and the others in the geometry and transform checks.
- `\d` is modelled as the ASCII digits only; Python also accepts other Unicode decimal digits.
- Paths follow `posixpath`; Windows path rules are not modelled.
- File and process I/O are host parameters, not modelled:
  - JSON reading becomes `Selector.ConfigSource`;
  - `os.path.exists`, `cmds.file` opening, `os.makedirs` and whether the CSV file can be
    written are `Batch.Host` answers;
  - the scene Maya has open is a `Batch.OpenScene` value: its check functions and the name
    `cmds.file(query=True, sceneName=True)` reports, which `Batch.Host` gives per opened path;
  - the `csv` module's quoting, line endings and UTF-8 byte-order mark are not modelled;
  - `print` output is not modelled.
- Configuration shapes other than a mapping of categories to lists of items with a "name" and a
  "description" are not modelled. This includes the `KeyError` of an item without them.
- A `cancel()` issued from inside the progress callback during a run is not modelled. The
  loop-top test of `cancelled` in `run_checks` therefore never fires in the model.
- Qt presentation is not modelled:
  - expanding and collapsing;
  - stylesheets and severity colours;
  - the warning message box, which is the `warned` flag;
  - closing, which is the `closed` flag;
  - `on_cancel_clicked`, `get_available_configs` and the unused `CHECK_CATEGORIES` table.
- The callback of `CheckSelectorUI` is recorded as a list of calls rather than performed.
- `Naming.DefaultNamesListed`, `Naming.InvalidNamesListed`: "listed once" is proved only for
  scenes whose long names are distinct. Maya guarantees that for long names, and the model
  takes them as an input list.
- `Batch.RunBatchCheck`: when `cmds.file(..., open=True, force=True)` raises, the model takes the
  scene open before the call to stay open; what Maya has open after a failed open is not modelled.
