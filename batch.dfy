/** Batch mode: every check of a configuration is run on a scene without the selection window,
    and the results are written as CSV rows; several scenes can be checked in one call. */
module Batch {
  import opened Wrappers
  import opened Seqs
  import opened Strings
  import opened Records
  import opened Paths
  import Runner
  import Selector

  // Selecting every check

  /** The record batch mode builds for an item: the category and the item's name and
      description, no "severity" key, and the item's function name, else "". */
  function BatchRecord(category: string, item: ConfigItem): (r: CheckRecord)
    ensures r.category == category && r.name == item.name && r.description == item.description
    ensures r.severity.None?
    ensures item.functionName.Some? ==> r.functionName == item.functionName.value
    ensures item.functionName.None? ==> r.functionName == ""
  {
    CheckRecord(category, item.name, item.description, None, item.functionName.GetOr(""))
  }

  /** The records of the first `m` items of one category, in item order. */
  function ItemRecords(category: string, items: seq<ConfigItem>, m: nat): (r: seq<CheckRecord>)
    requires m <= |items|
    ensures |r| == m
  {
    if m == 0 then [] else ItemRecords(category, items, m - 1) + [BatchRecord(category, items[m - 1])]
  }

  /** The records of every item of the first `n` categories: categories in file order, then
      items in order. */
  function AllRecords(categories: seq<Category>, n: nat): seq<CheckRecord>
    requires n <= |categories|
  {
    if n == 0 then []
    else AllRecords(categories, n - 1) + ItemRecords(categories[n - 1].name, categories[n - 1].items, |categories[n - 1].items|)
  }

  /** The records `run_batch_check` runs for a configuration. */
  function BatchRecords(config: Config): seq<CheckRecord> {
    var categories := CategoriesOf(config);
    AllRecords(categories, |categories|)
  }

  /** The loop of `run_batch_check` that collects `all_checks`. */
  method SelectAllChecks(config: Config) returns (allChecks: seq<CheckRecord>)
    ensures allChecks == BatchRecords(config)
  {
    var categories := CategoriesOf(config);
    allChecks := [];
    var i := 0;
    while i < |categories|
      invariant 0 <= i <= |categories|
      invariant allChecks == AllRecords(categories, i)
    {
      var category := categories[i];
      ghost var before := allChecks;
      var j := 0;
      while j < |category.items|
        invariant 0 <= j <= |category.items|
        invariant allChecks == before + ItemRecords(category.name, category.items, j)
      {
        allChecks := allChecks + [BatchRecord(category.name, category.items[j])];
        j := j + 1;
      }
      i := i + 1;
    }
  }

  /** How many items the first `n` categories hold. */
  function TotalItems(categories: seq<Category>, n: nat): nat
    requires n <= |categories|
  {
    if n == 0 then 0 else TotalItems(categories, n - 1) + |categories[n - 1].items|
  }

  /** Item `j` of category `i` gives the record at position `TotalItems(categories, i) + j`:
      every item is selected, once, in category order and then item order. */
  lemma {:induction false} AllRecordsAt(categories: seq<Category>, n: nat, i: nat, j: nat)
    requires n <= |categories| && i < n && j < |categories[i].items|
    ensures |AllRecords(categories, n)| == TotalItems(categories, n)
    ensures TotalItems(categories, i) + j < TotalItems(categories, n)
    ensures AllRecords(categories, n)[TotalItems(categories, i) + j] == BatchRecord(categories[i].name, categories[i].items[j])
  {
    var before := AllRecords(categories, n - 1);
    var last := categories[n - 1];
    assert AllRecords(categories, n) == before + ItemRecords(last.name, last.items, |last.items|);
    AllRecordsLength(categories, n - 1);
    TotalItemsMonotone(categories, i + 1, n);
    if i < n - 1 {
      AllRecordsAt(categories, n - 1, i, j);
    } else {
      ItemRecordsAt(last.name, last.items, |last.items|, j);
    }
  }

  /** There is one record per item. */
  lemma {:induction false} AllRecordsLength(categories: seq<Category>, n: nat)
    requires n <= |categories|
    ensures |AllRecords(categories, n)| == TotalItems(categories, n)
  {
    if n > 0 {
      AllRecordsLength(categories, n - 1);
    }
  }

  /** More categories hold at least as many items. */
  lemma {:induction false} TotalItemsMonotone(categories: seq<Category>, m: nat, n: nat)
    requires m <= n <= |categories|
    ensures TotalItems(categories, m) <= TotalItems(categories, n)
    decreases n - m
  {
    if m < n {
      TotalItemsMonotone(categories, m, n - 1);
    }
  }

  /** Item `j` gives the `j`-th record of its category. */
  lemma {:induction false} ItemRecordsAt(category: string, items: seq<ConfigItem>, m: nat, j: nat)
    requires j < m <= |items|
    ensures ItemRecords(category, items, m)[j] == BatchRecord(category, items[j])
  {
    if j < m - 1 {
      ItemRecordsAt(category, items, m - 1, j);
    }
  }

  /** No batch record carries a severity. */
  lemma {:induction false} AllRecordsLackSeverity(categories: seq<Category>, n: nat)
    requires n <= |categories|
    ensures forall k :: 0 <= k < |AllRecords(categories, n)| ==> AllRecords(categories, n)[k].severity.None?
  {
    if n > 0 {
      AllRecordsLackSeverity(categories, n - 1);
      var items := categories[n - 1].items;
      var before := AllRecords(categories, n - 1);
      forall k | |before| <= k < |AllRecords(categories, n)|
        ensures AllRecords(categories, n)[k].severity.None?
      {
        ItemRecordsAt(categories[n - 1].name, items, |items|, k - |before|);
      }
    }
  }

  /** So in batch mode a check that copies "severity" from its record raises as soon as it
      finds something; a run stops there. */
  lemma BatchSeverityReadersRaise(config: Config, k: nat, items: seq<string>, adjust: Option<Corrective>)
    requires k < |BatchRecords(config)| && |items| > 0
    ensures RecordReport(BatchRecords(config)[k], items, adjust) == Raised("severity")
  {
    var categories := CategoriesOf(config);
    AllRecordsLackSeverity(categories, |categories|);
  }

  /** A batch record and the record the selection window builds for the same item differ only
      in the severity, which the window fills in. */
  lemma BatchAndSelectedRecords(category: string, item: ConfigItem)
    ensures Selector.SelectedRecord(category, item)
            == BatchRecord(category, item).(severity := Some(item.severity.GetOr("warning")))
  {
  }

  // CSV rows

  /** The header row. */
  const Header: seq<string> := ["チェック名", "重要度", "件数", "説明", "エラー項目"]

  /** The "エラー項目" cell: the items joined by newlines, or "" when there are none. */
  function ItemsCell(items: Option<seq<string>>): string {
    if items.Some? && items.value != [] then Join(items.value, "\n") else ""
  }

  /** The row written for a result; a missing name, severity or description gives "", a
      missing count 0, as `str` writes it. */
  function Row(r: Report): (row: seq<string>)
    ensures |row| == |Header|
  {
    [r.name.GetOr(""), r.severity.GetOr(""), IntToDecimal(r.count.GetOr(0)), r.description.GetOr(""), ItemsCell(r.items)]
  }

  /** The rows for the first `n` results, in result order. */
  function RowsUpTo(results: seq<Report>, n: nat): (rows: seq<seq<string>>)
    requires n <= |results|
    ensures |rows| == n
  {
    if n == 0 then [] else RowsUpTo(results, n - 1) + [Row(results[n - 1])]
  }

  /** Everything `export_to_csv` writes: the header, then one row per result. */
  function Table(results: seq<Report>): seq<seq<string>> {
    [Header] + RowsUpTo(results, |results|)
  }

  /** `export_to_csv(results, output_path)`, without the file: the rows in writing order. */
  method ExportRows(results: seq<Report>) returns (rows: seq<seq<string>>)
    ensures rows == Table(results)
  {
    rows := [Header];
    var i := 0;
    while i < |results|
      invariant 0 <= i <= |results|
      invariant rows == [Header] + RowsUpTo(results, i)
    {
      var result := results[i];
      var itemsCell := if result.items.Some? && result.items.value != [] then Join(result.items.value, "\n") else "";
      rows := rows + [[result.name.GetOr(""), result.severity.GetOr(""), IntToDecimal(result.count.GetOr(0)),
                       result.description.GetOr(""), itemsCell]];
      i := i + 1;
    }
  }

  /** The table starts with the header and has one row per result, the `k`-th row for the
      `k`-th result; no results give the header alone. */
  lemma {:induction false} TableRows(results: seq<Report>, n: nat)
    requires n <= |results|
    ensures forall k :: 0 <= k < n ==> RowsUpTo(results, n)[k] == Row(results[k])
  {
    if n > 0 {
      TableRows(results, n - 1);
    }
  }

  /** The table is the header followed by the row of each result, in order. */
  lemma TableShape(results: seq<Report>)
    ensures |Table(results)| == |results| + 1 && Table(results)[0] == Header
    ensures forall k :: 0 <= k < |results| ==> Table(results)[k + 1] == Row(results[k])
  {
    TableRows(results, |results|);
  }

  /** A row gives back what it was written from: the count read as an integer, and the items
      split at newlines when no item holds one. */
  lemma RowRoundTrip(r: Report)
    requires r.items.Some? && r.items.value != []
    requires forall k :: 0 <= k < |r.items.value| ==> NoChar(r.items.value[k], '\n')
    ensures IsDecimalInt(Row(r)[2]) && DecimalToInt(Row(r)[2]) == r.count.GetOr(0)
    ensures Split(Row(r)[4], "\n") == r.items.value
  {
    IntDecimalRoundTrip(r.count.GetOr(0));
    SplitJoin(r.items.value, "\n");
  }

  /** Each cell of a row is the result's value for its key, or the default for a missing key:
      "" for the name, the severity and the description, 0 for the count, and "" for items that
      are missing or empty. */
  lemma RowCells(r: Report)
    ensures Row(r)[0] == (if r.name.Some? then r.name.value else "")
    ensures Row(r)[1] == (if r.severity.Some? then r.severity.value else "")
    ensures r.count.None? ==> Row(r)[2] == "0"
    ensures r.count.Some? ==> IsDecimalInt(Row(r)[2]) && DecimalToInt(Row(r)[2]) == r.count.value
    ensures Row(r)[3] == (if r.description.Some? then r.description.value else "")
    ensures r.items == None || r.items == Some([]) ==> Row(r)[4] == ""
    ensures r.items.Some? && r.items.value != [] ==> Row(r)[4] == Join(r.items.value, "\n")
  {
    IntDecimalRoundTrip(r.count.GetOr(0));
    assert NatToDecimal(0) == "0";
  }

  // run_batch_check

  /** The scene Maya has open, as `run_batch_check` sees it: the check functions bound to it, and
      the name `cmds.file(query=True, sceneName=True)` reports for it ("" when untitled). */
  datatype OpenScene = OpenScene(registry: Registry, name: string)

  /** What the batch runner asks of the host and the file system. */
  datatype Host = Host(
    /** `os.path.exists`. */
    fileExists: string -> bool,
    /** Whether `cmds.file(path, open=True, force=True)` succeeds. */
    opens: string -> bool,
    /** The scene open once `path` has been opened. */
    sceneAt: string -> OpenScene,
    /** Whether `os.makedirs(path, exist_ok=True)` succeeds. */
    makesDir: string -> bool,
    /** Whether the CSV file `path` can be opened for writing. */
    writable: string -> bool)

  /** Why `run_batch_check` raised. */
  datatype BatchError =
    | SceneNotFound(path: string)
    | OpenFailed(path: string)
    | CheckRaised(missingKey: string)
    | WriteFailed(path: string)

  /** The CSV file written: its path and its rows. */
  datatype Written = Written(path: string, rows: seq<seq<string>>)

  /** Whether `run_batch_check` opens `sceneFile`: one is given, it exists and it opens. */
  predicate OpensScene(host: Host, sceneFile: string) {
    sceneFile != [] && host.fileExists(sceneFile) && host.opens(sceneFile)
  }

  /** The scene open once `run_batch_check` is past its opening step, `scene` being the one open
      before the call: the scene opened, else `scene` still. */
  function SceneAfterOpen(host: Host, sceneFile: string, scene: OpenScene): OpenScene {
    if OpensScene(host, sceneFile) then host.sceneAt(sceneFile) else scene
  }

  /** The run of every check of the configuration on the open scene, without a progress callback. */
  function BatchRun(source: Selector.ConfigSource, scene: OpenScene): Runner.RunState {
    Runner.Run(scene.registry, BatchRecords(Selector.LoadCheckConfig(source)), None)
  }

  /** Where the CSV file goes: `output_csv`, else a name after the open scene's name. */
  function CsvPath(outputCsv: string, scene: OpenScene): string {
    if outputCsv != [] then outputCsv else DefaultCsvName(scene.name)
  }

  /** `run_batch_check(config_name, output_csv, scene_file)` with `scene` open before the call;
      an empty `output_csv` or `sceneFile` counts as not given. */
  function BatchCheck(host: Host, source: Selector.ConfigSource, outputCsv: string, sceneFile: string, scene: OpenScene)
    : Result<Written, BatchError>
  {
    if sceneFile != [] && !host.fileExists(sceneFile) then Failure(SceneNotFound(sceneFile))
    else if sceneFile != [] && !host.opens(sceneFile) then Failure(OpenFailed(sceneFile))
    else
      var current := SceneAfterOpen(host, sceneFile, scene);
      var run := BatchRun(source, current);
      if run.raised.Some? then Failure(CheckRaised(run.raised.value))
      else
        var path := CsvPath(outputCsv, current);
        if !host.writable(path) then Failure(WriteFailed(path))
        else Success(Written(path, Table(run.results)))
  }

  /** `run_batch_check`: opens the scene if one is given, runs every check of the configuration
      without a progress callback on the scene then open and writes the results; `after` is the
      scene open when it returns or raises. */
  method RunBatchCheck(host: Host, source: Selector.ConfigSource, outputCsv: string, sceneFile: string, scene: OpenScene)
    returns (r: Result<Written, BatchError>, after: OpenScene)
    ensures r == BatchCheck(host, source, outputCsv, sceneFile, scene)
    ensures after == SceneAfterOpen(host, sceneFile, scene)
  {
    after := scene;
    if sceneFile != [] {
      if !host.fileExists(sceneFile) {
        return Failure(SceneNotFound(sceneFile)), after;
      }
      if !host.opens(sceneFile) {
        return Failure(OpenFailed(sceneFile)), after;
      }
      after := host.sceneAt(sceneFile);
    }
    var config := Selector.LoadCheckConfig(source);
    var allChecks := SelectAllChecks(config);
    var checker := new Runner.SceneChecker();
    var outcome := checker.RunChecks(allChecks, after.registry, None);
    Runner.RunFromIsRun(after.registry, allChecks, None);
    if outcome.Failure? {
      return Failure(CheckRaised(outcome.error)), after;
    }
    var path := outputCsv;
    if path == [] {
      var currentScene := after.name;
      path := DefaultCsvName(currentScene);
    }
    if !host.writable(path) {
      return Failure(WriteFailed(path)), after;
    }
    var rows := ExportRows(outcome.value);
    r := Success(Written(path, rows));
  }

  /** A scene that does not exist is reported before any configuration is read or check run,
      whatever the checks would do and whatever scene is open. */
  lemma MissingSceneFirst(host: Host, source: Selector.ConfigSource, outputCsv: string, sceneFile: string, scene: OpenScene)
    requires sceneFile != [] && !host.fileExists(sceneFile)
    ensures BatchCheck(host, source, outputCsv, sceneFile, scene) == Failure(SceneNotFound(sceneFile))
    ensures forall scenes, config, open :: BatchCheck(host.(sceneAt := scenes), config, outputCsv, sceneFile, open)
                                             == Failure(SceneNotFound(sceneFile))
  {
  }

  /** Without an output path the file is named after the name Maya reports for the scene open
      after the opening step, without a directory part. */
  lemma DefaultOutputName(host: Host, source: Selector.ConfigSource, sceneFile: string, scene: OpenScene)
    requires BatchCheck(host, source, [], sceneFile, scene).Success?
    ensures var path := BatchCheck(host, source, [], sceneFile, scene).value.path;
            NoChar(path, '/') && EndsWith(path, CsvSuffix)
            && path == DefaultCsvName(SceneAfterOpen(host, sceneFile, scene).name)
    ensures sceneFile != [] ==> BatchCheck(host, source, [], sceneFile, scene).value.path == DefaultCsvName(host.sceneAt(sceneFile).name)
    ensures sceneFile == [] ==> BatchCheck(host, source, [], sceneFile, scene).value.path == DefaultCsvName(scene.name)
  {
    DefaultCsvNameIsLocal(SceneAfterOpen(host, sceneFile, scene).name);
  }

  /** A written file goes to `output_csv` when one is given. */
  lemma GivenOutputUsed(host: Host, source: Selector.ConfigSource, outputCsv: string, sceneFile: string, scene: OpenScene)
    requires BatchCheck(host, source, outputCsv, sceneFile, scene).Success? && outputCsv != []
    ensures BatchCheck(host, source, outputCsv, sceneFile, scene).value.path == outputCsv
  {
  }

  /** A written file holds a header and one row per result of the run on the scene open after
      the opening step. */
  lemma WrittenRows(host: Host, source: Selector.ConfigSource, outputCsv: string, sceneFile: string, scene: OpenScene)
    requires BatchCheck(host, source, outputCsv, sceneFile, scene).Success?
    ensures var rows := BatchCheck(host, source, outputCsv, sceneFile, scene).value.rows;
            var results := BatchRun(source, SceneAfterOpen(host, sceneFile, scene)).results;
            |rows| == |results| + 1 && rows[0] == Header
            && forall k :: 0 <= k < |results| ==> rows[k + 1] == Row(results[k])
  {
    var results := BatchRun(source, SceneAfterOpen(host, sceneFile, scene)).results;
    assert BatchCheck(host, source, outputCsv, sceneFile, scene).value.rows == Table(results);
    TableShape(results);
  }

  // batch_check_multiple_files

  /** Whether the loop's pass for `sceneFile` opens it: the output directory, if any, is made
      and `run_batch_check` opens the scene. */
  predicate PassOpens(host: Host, outputDir: string, sceneFile: string) {
    (outputDir == [] || host.makesDir(outputDir)) && OpensScene(host, sceneFile)
  }

  /** The scene open after the loop's pass for `sceneFile`, `scene` being open before it. */
  function OpenAfterPass(host: Host, outputDir: string, sceneFile: string, scene: OpenScene): OpenScene {
    if PassOpens(host, outputDir, sceneFile) then host.sceneAt(sceneFile) else scene
  }

  /** The scene open after the first `n` passes, `start` being open before the call. */
  function OpenAfter(host: Host, outputDir: string, sceneFiles: seq<string>, n: nat, start: OpenScene): OpenScene
    requires n <= |sceneFiles|
  {
    if n == 0 then start else OpenAfterPass(host, outputDir, sceneFiles[n - 1], OpenAfter(host, outputDir, sceneFiles, n - 1, start))
  }

  /** What checking one scene of `batch_check_multiple_files` gives, `scene` being open before
      the pass: the path written, or None when any step raised. */
  function SceneOutput(host: Host, source: Selector.ConfigSource, outputDir: string, sceneFile: string, scene: OpenScene)
    : Option<string>
  {
    if outputDir != [] && !host.makesDir(outputDir) then None
    else
      var r := BatchCheck(host, source, OutputPath(outputDir, sceneFile), sceneFile, scene);
      if r.Success? then Some(r.value.path) else None
  }

  /** What the pass for scene `k` gives, checked on the scene the passes before it left open. */
  function PassOutput(host: Host, source: Selector.ConfigSource, outputDir: string, sceneFiles: seq<string>, start: OpenScene,
                      k: nat): Option<string>
  {
    if k < |sceneFiles| then SceneOutput(host, source, outputDir, sceneFiles[k], OpenAfter(host, outputDir, sceneFiles, k, start))
    else None
  }

  /** The paths collected after the first `n` scenes: those of the passes that completed, in
      pass order. */
  function CompletedUpTo(host: Host, source: Selector.ConfigSource, outputDir: string, sceneFiles: seq<string>, n: nat,
                         start: OpenScene)
    : (paths: seq<string>)
    requires n <= |sceneFiles|
    ensures |paths| <= n
  {
    Present((k: nat) => PassOutput(host, source, outputDir, sceneFiles, start, k), n)
  }

  /** The body of `batch_check_multiple_files`' loop for one scene: the path written, or None
      when making the directory or `run_batch_check` raised; and the scene then open. */
  method CheckScene(host: Host, source: Selector.ConfigSource, outputDir: string, sceneFile: string, scene: OpenScene)
    returns (out: Option<string>, after: OpenScene)
    ensures out == SceneOutput(host, source, outputDir, sceneFile, scene)
    ensures after == OpenAfterPass(host, outputDir, sceneFile, scene)
  {
    if outputDir != [] && !host.makesDir(outputDir) {
      return None, scene;
    }
    var outputCsv := OutputPath(outputDir, sceneFile);
    var r;
    r, after := RunBatchCheck(host, source, outputCsv, sceneFile, scene);
    out := if r.Success? then Some(r.value.path) else None;
  }

  /** One more scene adds its path, if it completed, at the end, and leaves open what its pass
      opened. */
  lemma CompletedStep(host: Host, source: Selector.ConfigSource, outputDir: string, sceneFiles: seq<string>, i: nat,
                      start: OpenScene, out: Option<string>)
    requires i < |sceneFiles|
    requires out == SceneOutput(host, source, outputDir, sceneFiles[i], OpenAfter(host, outputDir, sceneFiles, i, start))
    ensures CompletedUpTo(host, source, outputDir, sceneFiles, i + 1, start)
            == CompletedUpTo(host, source, outputDir, sceneFiles, i, start) + (if out.Some? then [out.value] else [])
    ensures OpenAfter(host, outputDir, sceneFiles, i + 1, start)
            == OpenAfterPass(host, outputDir, sceneFiles[i], OpenAfter(host, outputDir, sceneFiles, i, start))
  {
    var outs := (k: nat) => PassOutput(host, source, outputDir, sceneFiles, start, k);
    assert outs(i) == out;
    assert Present(outs, i + 1) == Present(outs, i) + (if out.Some? then [out.value] else []);
  }

  /** One pass of `batch_check_multiple_files`' loop: checks scene `i` on the scene left open and
      appends its path when it completed. */
  method CollectScene(host: Host, source: Selector.ConfigSource, outputDir: string, sceneFiles: seq<string>,
                      i: nat, start: OpenScene, outputFiles: seq<string>, scene: OpenScene)
    returns (next: seq<string>, after: OpenScene)
    requires i < |sceneFiles|
    requires outputFiles == CompletedUpTo(host, source, outputDir, sceneFiles, i, start)
    requires scene == OpenAfter(host, outputDir, sceneFiles, i, start)
    ensures next == CompletedUpTo(host, source, outputDir, sceneFiles, i + 1, start)
    ensures after == OpenAfter(host, outputDir, sceneFiles, i + 1, start)
  {
    var out;
    out, after := CheckScene(host, source, outputDir, sceneFiles[i], scene);
    CompletedStep(host, source, outputDir, sceneFiles, i, start, out);
    next := outputFiles;
    if out.Some? {
      next := next + [out.value];
    }
  }

  /** `batch_check_multiple_files(scene_files, config_name, output_dir)` with `start` open before
      the call: a scene that raises is skipped and the loop goes on with the scene left open. */
  method BatchCheckMultipleFiles(host: Host, source: Selector.ConfigSource, sceneFiles: seq<string>, outputDir: string,
                                 start: OpenScene)
    returns (outputFiles: seq<string>)
    ensures outputFiles == CompletedUpTo(host, source, outputDir, sceneFiles, |sceneFiles|, start)
  {
    outputFiles := [];
    var scene := start;
    var i := 0;
    while i < |sceneFiles|
      invariant 0 <= i <= |sceneFiles|
      invariant outputFiles == CompletedUpTo(host, source, outputDir, sceneFiles, i, start)
      invariant scene == OpenAfter(host, outputDir, sceneFiles, i, start)
    {
      outputFiles, scene := CollectScene(host, source, outputDir, sceneFiles, i, start, outputFiles, scene);
      i := i + 1;
    }
  }

  /** After a pass that opened its scene, that scene stays open until a later pass opens another:
      each scene is checked on the one opened last. */
  lemma {:induction false} LastOpenedScene(host: Host, outputDir: string, sceneFiles: seq<string>, n: nat, start: OpenScene, j: nat)
    requires j < n <= |sceneFiles| && PassOpens(host, outputDir, sceneFiles[j])
    requires forall l :: j < l < n ==> !PassOpens(host, outputDir, sceneFiles[l])
    ensures OpenAfter(host, outputDir, sceneFiles, n, start) == host.sceneAt(sceneFiles[j])
  {
    if j < n - 1 {
      LastOpenedScene(host, outputDir, sceneFiles, n - 1, start, j);
    }
  }

  /** While no pass has opened a scene, the scene open before the call is still open. */
  lemma {:induction false} NothingOpenedYet(host: Host, outputDir: string, sceneFiles: seq<string>, n: nat, start: OpenScene)
    requires n <= |sceneFiles|
    requires forall l :: 0 <= l < n ==> !PassOpens(host, outputDir, sceneFiles[l])
    ensures OpenAfter(host, outputDir, sceneFiles, n, start) == start
  {
    if n > 0 {
      NothingOpenedYet(host, outputDir, sceneFiles, n - 1, start);
    }
  }

  /** An empty entry opens nothing, so it is checked, and its default-named file written, on the
      scene the entry before it opened. */
  lemma EmptyEntryAfterOpened(host: Host, source: Selector.ConfigSource, outputDir: string, sceneFiles: seq<string>,
                              i: nat, start: OpenScene)
    requires 0 < i < |sceneFiles| && sceneFiles[i] == [] && PassOpens(host, outputDir, sceneFiles[i - 1])
    ensures CompletedUpTo(host, source, outputDir, sceneFiles, i + 1, start)
            == CompletedUpTo(host, source, outputDir, sceneFiles, i, start)
               + (var out := SceneOutput(host, source, outputDir, [], host.sceneAt(sceneFiles[i - 1]));
                  if out.Some? then [out.value] else [])
    ensures OpenAfter(host, outputDir, sceneFiles, i + 1, start) == host.sceneAt(sceneFiles[i - 1])
  {
    LastOpenedScene(host, outputDir, sceneFiles, i, start, i - 1);
  }

  /** A scene that completes writes to its output path: in the output directory, or beside the
      scene, named after the scene's file name. */
  lemma SceneOutputPath(host: Host, source: Selector.ConfigSource, outputDir: string, sceneFile: string, scene: OpenScene)
    requires SceneOutput(host, source, outputDir, sceneFile, scene).Some?
    ensures SceneOutput(host, source, outputDir, sceneFile, scene).value == OutputPath(outputDir, sceneFile)
    ensures Basename(SceneOutput(host, source, outputDir, sceneFile, scene).value) == CsvName(Stem(sceneFile))
  {
    var path := OutputPath(outputDir, sceneFile);
    OutputPathBasename(outputDir, sceneFile);
    assert |path| > 0 by {
      assert |CsvName(Stem(sceneFile))| > 0;
    }
    GivenOutputUsed(host, source, path, sceneFile, scene);
  }

  /** A path is returned exactly when some scene completed with it, checked on the scene the
      passes before it left open. */
  lemma CompletedMember(host: Host, source: Selector.ConfigSource, outputDir: string, sceneFiles: seq<string>,
                        n: nat, start: OpenScene, p: string)
    requires n <= |sceneFiles|
    ensures p in CompletedUpTo(host, source, outputDir, sceneFiles, n, start)
            <==> exists k :: 0 <= k < n && PassOutput(host, source, outputDir, sceneFiles, start, k) == Some(p)
  {
    var outs := (k: nat) => PassOutput(host, source, outputDir, sceneFiles, start, k);
    PresentMember(outs, n, p);
    if p in Present(outs, n) {
      var k :| 0 <= k < n && outs(k) == Some(p);
      assert PassOutput(host, source, outputDir, sceneFiles, start, k) == Some(p);
    }
    if exists k :: 0 <= k < n && PassOutput(host, source, outputDir, sceneFiles, start, k) == Some(p) {
      var k :| 0 <= k < n && PassOutput(host, source, outputDir, sceneFiles, start, k) == Some(p);
      assert outs(k) == Some(p);
    }
  }

  /** A scene that fails adds nothing; the scenes after it are still checked. */
  lemma FailedSceneSkipped(host: Host, source: Selector.ConfigSource, outputDir: string, sceneFiles: seq<string>, n: nat,
                           start: OpenScene)
    requires n < |sceneFiles|
    requires SceneOutput(host, source, outputDir, sceneFiles[n], OpenAfter(host, outputDir, sceneFiles, n, start)).None?
    ensures CompletedUpTo(host, source, outputDir, sceneFiles, n + 1, start) == CompletedUpTo(host, source, outputDir, sceneFiles, n, start)
  {
  }

  /** A scene file that does not exist never completes, whatever scene is open. */
  lemma MissingSceneSkipped(host: Host, source: Selector.ConfigSource, outputDir: string, sceneFile: string, scene: OpenScene)
    requires sceneFile != [] && !host.fileExists(sceneFile)
    ensures SceneOutput(host, source, outputDir, sceneFile, scene).None?
  {
  }
}
