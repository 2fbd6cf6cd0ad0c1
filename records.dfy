/** The dictionaries the checker passes around, as datatypes. A key that a dictionary may lack is an
    `Option`; `None` stands for "key absent" (or, for the corrective, "key set to None"). */
module Records {
  import opened Wrappers

  /** A selected check: the dictionary handed to `run_checks` and on to the check function.
      `severity` is absent in the records the batch runner builds. */
  datatype CheckRecord = CheckRecord(
    category: string,
    name: string,
    description: string,
    severity: Option<string>,
    functionName: string)

  /** The corrective attached to a result under "adjust_function". */
  datatype Corrective =
    | LaminaFaces
    | ZeroEdgeLength
    | Ngons
    | ZeroAreaFaces
    | NonFrozenTransforms
    | NegativeScale
    | UnusedInfluences

  /** A result dictionary of a check function; every key may be missing. */
  datatype Report = Report(
    name: Option<string>,
    count: Option<int>,
    severity: Option<string>,
    description: Option<string>,
    items: Option<seq<string>>,
    adjust: Option<Corrective>)

  /** What a check function does when called: returns None, one result dictionary, a list whose
      entries may be None, or raises `KeyError` for a key missing from its check record. */
  datatype Outcome =
    | Absent
    | One(report: Report)
    | Many(entries: seq<Option<Report>>)
    | Raised(missingKey: string)

  /** A check function: for a fixed scene, a total function of its check record. */
  type CheckFunction = CheckRecord -> Outcome

  /** The module globals `run_checks` looks names up in; names bound to something that is not
      callable are left out of the map. */
  type Registry = map<string, CheckFunction>

  /** A check item of a configuration file; `severity` and `function` may be missing. */
  datatype ConfigItem = ConfigItem(
    name: string,
    description: string,
    severity: Option<string>,
    functionName: Option<string>)

  /** One entry of the "categories" mapping, in the file's order. */
  datatype Category = Category(name: string, items: seq<ConfigItem>)

  /** A configuration file's top-level dictionary. */
  datatype Config = Config(
    name: Option<string>,
    description: Option<string>,
    categories: Option<seq<Category>>)

  /** The categories of a configuration, `config.get("categories", {})`. */
  function CategoriesOf(config: Config): (r: seq<Category>)
    ensures config.categories.None? ==> r == []
  {
    config.categories.GetOr([])
  }

  /** A result whose "count" exceeds zero (a missing count reads as 0). */
  predicate HasFindings(r: Report) {
    r.count.GetOr(0) > 0
  }

  /** The result dictionary most check functions build from their check record when they found
      something: name, severity and description are copied from the record, so a record without
      "severity" makes the function raise `KeyError`. */
  function RecordReport(info: CheckRecord, items: seq<string>, adjust: Option<Corrective>): (o: Outcome)
    ensures |items| == 0 <==> o.Absent?
    ensures o.Raised? <==> |items| > 0 && info.severity.None?
    ensures o.One? ==> HasFindings(o.report) && o.report.items == Some(items)
  {
    if |items| == 0 then Absent
    else match info.severity
      case None => Raised("severity")
      case Some(severity) =>
        One(Report(Some(info.name), Some(|items|), Some(severity), Some(info.description), Some(items), adjust))
  }
}
