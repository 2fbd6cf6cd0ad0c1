/** The naming rules of `check_naming_issues` and `check_bg_naming_convention`. Both look at the
    scene's transforms, leave out cameras, and judge each object by its short name. */
module Naming {
  import opened Wrappers
  import opened Seqs
  import opened Strings
  import opened Records
  import Runner

  /** What the naming checks ask the scene. */
  datatype Scene = Scene(
    /** `cmds.ls(transforms=True, long=True)`: long names in scene order. */
    transforms: seq<string>,
    /** Whether the node is a camera or has a camera shape. */
    isCamera: string -> bool,
    /** `cmds.ls(name, long=True)`: the long names of the nodes whose short name is `name`. */
    lsLong: string -> seq<string>)

  /** `obj.split("|")[-1]`: the node name without its parents (ShortNameIsLastPart). */
  function ShortName(obj: string): string {
    AfterLast(obj, '|')
  }

  /** ShortName is the last '|'-separated part, as the source computes it. */
  lemma ShortNameIsLastPart(obj: string)
    ensures ShortName(obj) == Last(Split(obj, "|"))
  {
    AfterLastIsLastPart(obj, '|');
  }

  /** The short name of "parent|name" is "name", whatever the parent path. */
  lemma ShortNameOfChild(parent: string, name: string)
    requires NoChar(name, '|')
    ensures ShortName(parent + "|" + name) == name
  {
    var p := parent + "|" + name;
    assert p[|parent|] == '|' && p[|parent| + 1..] == name;
    AfterLastSkipsPrefix(p, '|', |parent|);
    AfterLastWithoutSep(name, '|');
  }

  /** The objects both checks judge: the transforms that are not cameras, in scene order. */
  function Candidates(scene: Scene): seq<string> {
    Gather(scene.transforms, obj => !scene.isCamera(obj), Id, |scene.transforms|)
  }

  /** Exactly the non-camera transforms are judged. */
  lemma CamerasExcluded(scene: Scene, obj: string)
    ensures obj in Candidates(scene) <==> obj in scene.transforms && !scene.isCamera(obj)
  {
    var keep := o => !scene.isCamera(o);
    GatherKeeps(scene.transforms, keep, |scene.transforms|, obj);
    if obj in scene.transforms {
      var k :| 0 <= k < |scene.transforms| && scene.transforms[k] == obj;
    }
  }

  // Default Names

  /** The prefixes Maya gives new primitives and groups. */
  const DefaultPrefixes: seq<string> := ["pCube", "pSphere", "pCylinder", "pPlane", "pTorus", "polySurface", "group"]

  /** The name starts with one of the default prefixes. */
  predicate IsDefaultName(shortName: string) {
    exists p :: 0 <= p < |DefaultPrefixes| && StartsWith(shortName, DefaultPrefixes[p])
  }

  /** The object's short name is a default name. */
  predicate HasDefaultName(obj: string) {
    IsDefaultName(ShortName(obj))
  }

  /** The inner loop of the default-name test: it tries the prefixes in order and stops at the
      first one the short name starts with. */
  method MatchesDefaultPrefix(obj: string) returns (matched: bool)
    ensures matched <==> HasDefaultName(obj)
  {
    var shortName := ShortName(obj);
    var p := 0;
    while p < |DefaultPrefixes|
      invariant 0 <= p <= |DefaultPrefixes|
      invariant forall q :: 0 <= q < p ==> !StartsWith(shortName, DefaultPrefixes[q])
    {
      if StartsWith(shortName, DefaultPrefixes[p]) {
        return true;
      }
      p := p + 1;
    }
    return false;
  }

  /** The objects among the first `n` whose short name is a default name, in order. */
  function DefaultUpTo(objects: seq<string>, n: nat): seq<string>
    requires n <= |objects|
  {
    if n == 0 then []
    else DefaultUpTo(objects, n - 1) + (if HasDefaultName(objects[n - 1]) then [objects[n - 1]] else [])
  }

  /** DefaultUpTo is the comprehension that keeps default names. */
  lemma {:induction false} DefaultUpToIsGather(objects: seq<string>, n: nat)
    requires n <= |objects|
    ensures DefaultUpTo(objects, n) == Gather(objects, HasDefaultName, Id, n)
  {
    if n > 0 {
      DefaultUpToIsGather(objects, n - 1);
    }
  }

  /** `default_names`: each object whose short name starts with a default prefix, once, in order. */
  method DefaultNames(objects: seq<string>) returns (found: seq<string>)
    ensures found == Gather(objects, HasDefaultName, Id, |objects|)
  {
    found := [];
    var i := 0;
    while i < |objects|
      invariant 0 <= i <= |objects|
      invariant found == DefaultUpTo(objects, i)
    {
      var obj := objects[i];
      var matched := MatchesDefaultPrefix(obj);
      if matched {
        found := found + [obj];
      }
      i := i + 1;
    }
    DefaultUpToIsGather(objects, |objects|);
  }

  // Invalid Characters

  /** The characters the source rejects in a short name. */
  predicate IsInvalidChar(c: char) {
    c == ' ' || c == '.' || c == '-' || c == ':' || c == ';'
  }

  /** The short name holds a space, '.', '-', ':' or ';'. */
  predicate HasInvalidChar(obj: string) {
    exists k :: 0 <= k < |ShortName(obj)| && IsInvalidChar(ShortName(obj)[k])
  }

  /** `invalid_chars`: each object whose short name holds an invalid character, in order. */
  method InvalidCharNames(objects: seq<string>) returns (found: seq<string>)
    ensures found == Gather(objects, HasInvalidChar, Id, |objects|)
  {
    found := [];
    var i := 0;
    while i < |objects|
      invariant 0 <= i <= |objects|
      invariant found == Gather(objects, HasInvalidChar, Id, i)
    {
      var obj := objects[i];
      if HasInvalidChar(obj) {
        found := found + [obj];
      }
      i := i + 1;
    }
  }

  /** A '|' is not an invalid character: the parent path never makes an object invalid. */
  lemma ParentPathIgnored(parent: string, name: string)
    requires NoChar(name, '|')
    ensures HasInvalidChar(parent + "|" + name) <==> exists k :: 0 <= k < |name| && IsInvalidChar(name[k])
    ensures HasDefaultName(parent + "|" + name) <==> IsDefaultName(name)
  {
    ShortNameOfChild(parent, name);
    AfterLastWithoutSep(name, '|');
  }

  /** The objects "Default Names" lists. */
  function DefaultNamesOf(scene: Scene): seq<string> {
    var objects := Candidates(scene);
    Gather(objects, HasDefaultName, Id, |objects|)
  }

  /** The objects "Invalid Characters" lists. */
  function InvalidNamesOf(scene: Scene): seq<string> {
    var objects := Candidates(scene);
    Gather(objects, HasInvalidChar, Id, |objects|)
  }

  /** "Default Names" lists exactly the non-camera transforms with a default short name, and
      lists each once when the scene's long names are unique. */
  lemma DefaultNamesListed(scene: Scene, obj: string)
    ensures obj in DefaultNamesOf(scene)
            <==> obj in scene.transforms && !scene.isCamera(obj) && HasDefaultName(obj)
    ensures Distinct(scene.transforms) ==> Distinct(DefaultNamesOf(scene))
  {
    var objects := Candidates(scene);
    GatherKeeps(objects, HasDefaultName, |objects|, obj);
    CamerasExcluded(scene, obj);
    CandidatesDistinct(scene);
    if Distinct(scene.transforms) {
      GatherDistinct(objects, HasDefaultName, |objects|);
    }
  }

  /** "Invalid Characters" lists exactly the non-camera transforms whose short name holds an
      invalid character, each once when the scene's long names are unique. */
  lemma InvalidNamesListed(scene: Scene, obj: string)
    ensures obj in InvalidNamesOf(scene)
            <==> obj in scene.transforms && !scene.isCamera(obj) && HasInvalidChar(obj)
    ensures Distinct(scene.transforms) ==> Distinct(InvalidNamesOf(scene))
  {
    var objects := Candidates(scene);
    GatherKeeps(objects, HasInvalidChar, |objects|, obj);
    CamerasExcluded(scene, obj);
    CandidatesDistinct(scene);
    if Distinct(scene.transforms) {
      GatherDistinct(objects, HasInvalidChar, |objects|);
    }
  }

  /** Leaving out cameras keeps long names unique. */
  lemma CandidatesDistinct(scene: Scene)
    ensures Distinct(scene.transforms) ==> Distinct(Candidates(scene))
  {
    if Distinct(scene.transforms) {
      GatherDistinct(scene.transforms, obj => !scene.isCamera(obj), |scene.transforms|);
    }
  }

  // Duplicate Names

  /** `[obj.split("|")[-1] for obj in objects]`. */
  function ShortNames(objects: seq<string>): (r: seq<string>)
    ensures |r| == |objects|
    ensures forall k {:trigger r[k]} :: 0 <= k < |r| ==> r[k] == ShortName(objects[k])
  {
    GatherAll(objects, obj => true, ShortName, |objects|);
    Gather(objects, obj => true, ShortName, |objects|)
  }

  /** `name_count`: its keys in insertion order and the count stored under each. */
  datatype NameCount = NameCount(keys: seq<string>, counts: map<string, nat>)

  /** `name_count` after counting the first `n` names: a new name is appended to the keys with
      count 1, a known one keeps its place and is incremented. */
  function CountUpTo(names: seq<string>, n: nat): NameCount
    requires n <= |names|
  {
    if n == 0 then NameCount([], map[])
    else
      var c := CountUpTo(names, n - 1);
      var name := names[n - 1];
      if name in c.counts then NameCount(c.keys, c.counts[name := c.counts[name] + 1])
      else NameCount(c.keys + [name], c.counts[name := 1])
  }

  /** How often `x` occurs among the first `n` names. */
  function Occurrences(names: seq<string>, n: nat, x: string): nat
    requires n <= |names|
  {
    if n == 0 then 0 else Occurrences(names, n - 1, x) + (if names[n - 1] == x then 1 else 0)
  }

  /** A name occurs exactly when it sits at some index. */
  lemma {:induction false} OccurrencesPositive(names: seq<string>, n: nat, x: string)
    requires n <= |names|
    ensures Occurrences(names, n, x) > 0 <==> exists k :: 0 <= k < n && names[k] == x
  {
    if n > 0 {
      OccurrencesPositive(names, n - 1, x);
    }
  }

  /** The dictionary stores under each name how often it occurs, and nothing for absent names. */
  lemma {:induction false} CountsAreOccurrences(names: seq<string>, n: nat, x: string)
    requires n <= |names|
    ensures x in CountUpTo(names, n).counts <==> Occurrences(names, n, x) > 0
    ensures x in CountUpTo(names, n).counts ==> CountUpTo(names, n).counts[x] == Occurrences(names, n, x)
  {
    if n > 0 {
      CountsAreOccurrences(names, n - 1, x);
    }
  }

  /** The dictionary's keys are the names that occur. */
  lemma {:induction false} KeysAreOccurring(names: seq<string>, n: nat, x: string)
    requires n <= |names|
    ensures x in CountUpTo(names, n).keys <==> Occurrences(names, n, x) > 0
  {
    if n > 0 {
      KeysAreOccurring(names, n - 1, x);
      CountsAreOccurrences(names, n - 1, names[n - 1]);
    }
  }

  /** Each name is a key once: the dictionary keeps first-occurrence order without repeats. */
  lemma {:induction false} KeysDistinct(names: seq<string>, n: nat)
    requires n <= |names|
    ensures Distinct(CountUpTo(names, n).keys)
  {
    if n > 0 {
      KeysDistinct(names, n - 1);
      var c := CountUpTo(names, n - 1);
      var name := names[n - 1];
      if name !in c.counts {
        CountsAreOccurrences(names, n - 1, name);
        KeysAreOccurring(names, n - 1, name);
        var keys := c.keys + [name];
        forall i, j | 0 <= i < j < |keys|
          ensures keys[i] != keys[j]
        {
          if j == |c.keys| {
            assert keys[i] == c.keys[i];
          }
        }
      }
    }
  }

  /** The counting loop of `check_naming_issues`. */
  method CountNames(names: seq<string>) returns (c: NameCount)
    ensures c == CountUpTo(names, |names|)
  {
    var keys: seq<string> := [];
    var counts: map<string, nat> := map[];
    var i := 0;
    while i < |names|
      invariant 0 <= i <= |names|
      invariant NameCount(keys, counts) == CountUpTo(names, i)
    {
      var name := names[i];
      var before := if name in counts then counts[name] else 0;
      if name !in counts {
        keys := keys + [name];
      }
      counts := counts[name := before + 1];
      i := i + 1;
    }
    c := NameCount(keys, counts);
  }

  /** Whether the dictionary holds `name` with a count above one. */
  predicate Repeated(c: NameCount, name: string) {
    name in c.counts && c.counts[name] > 1
  }

  /** `duplicate_names` after visiting the first `n` keys: the long names of every repeated
      short name, in key order. */
  function DuplicatesUpTo(c: NameCount, lsLong: string -> seq<string>, n: nat): seq<string>
    requires n <= |c.keys|
  {
    if n == 0 then []
    else DuplicatesUpTo(c, lsLong, n - 1) + (if Repeated(c, c.keys[n - 1]) then lsLong(c.keys[n - 1]) else [])
  }

  /** The loop over `name_count.items()` that extends `duplicate_names`. */
  method DuplicateNames(c: NameCount, lsLong: string -> seq<string>) returns (found: seq<string>)
    ensures found == DuplicatesUpTo(c, lsLong, |c.keys|)
  {
    found := [];
    var i := 0;
    while i < |c.keys|
      invariant 0 <= i <= |c.keys|
      invariant found == DuplicatesUpTo(c, lsLong, i)
    {
      var name := c.keys[i];
      if name in c.counts && c.counts[name] > 1 {
        found := found + lsLong(name);
      }
      i := i + 1;
    }
  }

  /** What the duplicate loop lists comes from the keys it visited that are repeated. */
  lemma {:induction false} DuplicatesMember(c: NameCount, lsLong: string -> seq<string>, n: nat, y: string)
    requires n <= |c.keys|
    ensures y in DuplicatesUpTo(c, lsLong, n)
            <==> exists j :: 0 <= j < n && Repeated(c, c.keys[j]) && y in lsLong(c.keys[j])
  {
    if n > 0 {
      DuplicatesMember(c, lsLong, n - 1, y);
    }
  }

  /** The objects "Duplicate Names" lists. */
  function DuplicatesOf(scene: Scene): seq<string> {
    var names := ShortNames(Candidates(scene));
    var c := CountUpTo(names, |names|);
    DuplicatesUpTo(c, scene.lsLong, |c.keys|)
  }

  /** A repeated key is a name that occurs more than once. */
  lemma RepeatedKeyOccurs(names: seq<string>, j: nat)
    requires j < |CountUpTo(names, |names|).keys|
    requires Repeated(CountUpTo(names, |names|), CountUpTo(names, |names|).keys[j])
    ensures exists k :: 0 <= k < |names| && names[k] == CountUpTo(names, |names|).keys[j]
                        && Occurrences(names, |names|, names[k]) > 1
  {
    var name := CountUpTo(names, |names|).keys[j];
    CountsAreOccurrences(names, |names|, name);
    OccurrencesPositive(names, |names|, name);
  }

  /** A name that occurs more than once is a repeated key. */
  lemma OccurringNameIsKey(names: seq<string>, k: nat)
    requires k < |names| && Occurrences(names, |names|, names[k]) > 1
    ensures exists j :: 0 <= j < |CountUpTo(names, |names|).keys|
                        && CountUpTo(names, |names|).keys[j] == names[k]
                        && Repeated(CountUpTo(names, |names|), names[k])
  {
    CountsAreOccurrences(names, |names|, names[k]);
    KeysAreOccurring(names, |names|, names[k]);
  }

  /** "Duplicate Names" lists what the scene returns for exactly those short names that occur more
      than once among the non-camera transforms. */
  lemma DuplicatesListed(scene: Scene, y: string)
    ensures var names := ShortNames(Candidates(scene));
            y in DuplicatesOf(scene)
            <==> exists k :: 0 <= k < |names| && Occurrences(names, |names|, names[k]) > 1 && y in scene.lsLong(names[k])
  {
    var names := ShortNames(Candidates(scene));
    var c := CountUpTo(names, |names|);
    DuplicatesMember(c, scene.lsLong, |c.keys|, y);
    if y in DuplicatesOf(scene) {
      var j :| 0 <= j < |c.keys| && Repeated(c, c.keys[j]) && y in scene.lsLong(c.keys[j]);
      RepeatedKeyOccurs(names, j);
    }
    if exists k :: 0 <= k < |names| && Occurrences(names, |names|, names[k]) > 1 && y in scene.lsLong(names[k]) {
      var k :| 0 <= k < |names| && Occurrences(names, |names|, names[k]) > 1 && y in scene.lsLong(names[k]);
      OccurringNameIsKey(names, k);
    }
  }

  // The three reports of check_naming_issues

  /** A result of `check_naming_issues`, added only when its list is non-empty; the check
      record is not consulted. */
  function IssueIfAny(name: string, severity: string, description: string, items: seq<string>): seq<Option<Report>> {
    if items == [] then [] else [Some(Report(Some(name), Some(|items|), Some(severity), Some(description), Some(items), None))]
  }

  const DefaultNamesDescription: string := "デフォルト名のオブジェクトが検出されました"
  const DuplicateNamesDescription: string := "重複した名前のオブジェクトが検出されました"
  const InvalidCharsDescription: string := "無効な文字を含む名前が検出されました"

  /** The list `check_naming_issues` returns for the three lists it computed: "Default Names"
      (warning), "Duplicate Names" (error) and "Invalid Characters" (warning), each only when
      its list is non-empty. */
  function ListIssues(defaults: seq<string>, duplicates: seq<string>, invalid: seq<string>): seq<Option<Report>> {
    IssueIfAny("Default Names", "warning", DefaultNamesDescription, defaults)
    + IssueIfAny("Duplicate Names", "error", DuplicateNamesDescription, duplicates)
    + IssueIfAny("Invalid Characters", "warning", InvalidCharsDescription, invalid)
  }

  /** The list `check_naming_issues` returns for a scene. */
  function NamingReports(scene: Scene): seq<Option<Report>> {
    ListIssues(DefaultNamesOf(scene), DuplicatesOf(scene), InvalidNamesOf(scene))
  }

  /** `check_naming_issues(check_info)`: always a list, never an exception. */
  method NamingIssues(scene: Scene, info: CheckRecord) returns (o: Outcome)
    ensures o == Many(NamingReports(scene))
  {
    var objects := Candidates(scene);
    var defaultNames := DefaultNames(objects);
    var names := ShortNames(objects);
    var nameCount := CountNames(names);
    var duplicateNames := DuplicateNames(nameCount, scene.lsLong);
    var invalidChars := InvalidCharNames(objects);
    assert defaultNames == DefaultNamesOf(scene);
    assert duplicateNames == DuplicatesOf(scene);
    assert invalidChars == InvalidNamesOf(scene);
    var results := IssueIfAny("Default Names", "warning", DefaultNamesDescription, defaultNames);
    results := results + IssueIfAny("Duplicate Names", "error", DuplicateNamesDescription, duplicateNames);
    results := results + IssueIfAny("Invalid Characters", "warning", InvalidCharsDescription, invalidChars);
    o := Many(results);
  }

  /** Every entry of the naming list is a result with findings, counting its items, with no
      corrective; so the runner keeps the whole list, in order. */
  lemma IssuesKept(defaults: seq<string>, duplicates: seq<string>, invalid: seq<string>)
    ensures var entries := ListIssues(defaults, duplicates, invalid);
            forall k :: 0 <= k < |entries| ==>
              entries[k].Some? && HasFindings(entries[k].value) && entries[k].value.items.Some?
              && entries[k].value.count == Some(|entries[k].value.items.value|)
              && entries[k].value.adjust.None?
    ensures var entries := ListIssues(defaults, duplicates, invalid);
            var kept := Runner.Reported(Many(entries));
            |kept| == |entries| && forall k :: 0 <= k < |entries| ==> kept[k] == entries[k].value
  {
    var entries := ListIssues(defaults, duplicates, invalid);
    Runner.AllKept(entries, |entries|);
  }

  /** The list holds one entry per non-empty list, in the order defaults, duplicates, invalid
      characters. */
  lemma IssuesOrder(defaults: seq<string>, duplicates: seq<string>, invalid: seq<string>)
    ensures var entries := ListIssues(defaults, duplicates, invalid);
            |entries| == (if defaults != [] then 1 else 0) + (if duplicates != [] then 1 else 0)
                         + (if invalid != [] then 1 else 0)
    ensures var entries := ListIssues(defaults, duplicates, invalid);
            (|entries| > 0 && entries[0].value.name == Some("Default Names")) <==> defaults != []
    ensures var entries := ListIssues(defaults, duplicates, invalid);
            forall k :: 0 <= k < |entries| ==> entries[k].Some? && IssueOf(entries[k].value, defaults, duplicates, invalid)
    ensures var entries := ListIssues(defaults, duplicates, invalid);
            forall i, j :: 0 <= i < j < |entries| ==> IssueRank(entries[i].value) < IssueRank(entries[j].value)
  {
  }

  /** A naming report is one of the three, with its severity and the list it was built from;
      a report is only built for a non-empty list. */
  predicate IssueOf(e: Report, defaults: seq<string>, duplicates: seq<string>, invalid: seq<string>) {
    (e.name == Some("Default Names") && e.severity == Some("warning") && e.items == Some(defaults) && defaults != [])
    || (e.name == Some("Duplicate Names") && e.severity == Some("error") && e.items == Some(duplicates) && duplicates != [])
    || (e.name == Some("Invalid Characters") && e.severity == Some("warning") && e.items == Some(invalid) && invalid != [])
  }

  /** The place of a naming report in the list: default names, then duplicates, then invalid
      characters. */
  function IssueRank(e: Report): int {
    if e.name == Some("Default Names") then 0 else if e.name == Some("Duplicate Names") then 1 else 2
  }

  /** "Default Names" is reported exactly when some non-camera transform has a default short
      name, and then it comes first. */
  lemma DefaultNamesReported(scene: Scene)
    ensures (|NamingReports(scene)| > 0 && NamingReports(scene)[0].value.name == Some("Default Names"))
            <==> exists obj :: obj in scene.transforms && !scene.isCamera(obj) && HasDefaultName(obj)
  {
    var found := DefaultNamesOf(scene);
    IssuesOrder(found, DuplicatesOf(scene), InvalidNamesOf(scene));
    if found != [] {
      DefaultNamesListed(scene, found[0]);
    }
    if exists obj :: obj in scene.transforms && !scene.isCamera(obj) && HasDefaultName(obj) {
      var obj :| obj in scene.transforms && !scene.isCamera(obj) && HasDefaultName(obj);
      DefaultNamesListed(scene, obj);
    }
  }

  // check_bg_naming_convention

  /** `[a-zA-Z]`. */
  predicate IsAsciiLetter(c: char) {
    ('a' <= c <= 'z') || ('A' <= c <= 'Z')
  }

  /** Every character is an ASCII letter. */
  predicate AllLetters(s: string) {
    forall k :: 0 <= k < |s| ==> IsAsciiLetter(s[k])
  }

  /** The whole of `s` is `[a-zA-Z]{4}_[a-zA-Z]{1,10}_\d{3}`. The pattern has one way to match:
      the area is the first four characters, the id the last three, the model name in between. */
  predicate BgCore(s: string) {
    10 <= |s| <= 19
    && AllLetters(s[..4]) && s[4] == '_'
    && AllLetters(s[5..|s| - 4]) && s[|s| - 4] == '_'
    && AllDigits(s[|s| - 3..])
  }

  /** `pattern.match(short_name)` for `^...$`: `$` also matches just before a final newline. */
  predicate MatchesBg(s: string) {
    BgCore(s) || (|s| > 0 && s[|s| - 1] == '\n' && BgCore(s[..|s| - 1]))
  }

  /** The parts of a conforming name: a four-letter area, a model name of one to ten letters and
      a three-digit id. */
  predicate ValidParts(area: string, model: string, id: string) {
    |area| == 4 && AllLetters(area) && 1 <= |model| <= 10 && AllLetters(model) && |id| == 3 && AllDigits(id)
  }

  /** `{area}_{modelname}_{id}`. */
  function BgName(area: string, model: string, id: string): string {
    area + "_" + model + "_" + id
  }

  /** A name built from valid parts conforms, and gives its parts back. */
  lemma BgNameConforms(area: string, model: string, id: string)
    requires ValidParts(area, model, id)
    ensures var s := BgName(area, model, id);
            BgCore(s) && s[..4] == area && s[5..|s| - 4] == model && s[|s| - 3..] == id
  {
    var s := BgName(area, model, id);
    assert s[..4] == area;
    assert s[5..|s| - 4] == model;
    assert s[|s| - 3..] == id;
  }

  /** A conforming name is the name built from its parts, and those parts are valid. */
  lemma BgCoreParts(s: string)
    requires BgCore(s)
    ensures ValidParts(s[..4], s[5..|s| - 4], s[|s| - 3..])
    ensures BgName(s[..4], s[5..|s| - 4], s[|s| - 3..]) == s
  {
    assert s == s[..4] + [s[4]] + s[5..|s| - 4] + [s[|s| - 4]] + s[|s| - 3..];
  }

  /** A name conforms exactly when it is built from valid parts. */
  lemma BgCoreIsBgName(s: string)
    ensures BgCore(s) <==> exists area, model, id :: ValidParts(area, model, id) && s == BgName(area, model, id)
  {
    if BgCore(s) {
      BgCoreParts(s);
    }
    if exists area, model, id :: ValidParts(area, model, id) && s == BgName(area, model, id) {
      var area, model, id :| ValidParts(area, model, id) && s == BgName(area, model, id);
      BgNameConforms(area, model, id);
    }
  }

  /** A conforming name followed by a newline still matches, since `$` matches before it. */
  lemma TrailingNewlineMatches(s: string)
    requires BgCore(s)
    ensures MatchesBg(s + "\n")
    ensures !BgCore(s + "\n")
  {
    var t := s + "\n";
    assert t[..|t| - 1] == s;
    assert t[|t| - 3..][2] == '\n';
  }

  /** The item listed for a non-conforming object. */
  function Annotated(obj: string): string {
    obj + " (期待形式: area_modelname_id)"
  }

  /** Different objects give different items. */
  lemma AnnotatedInjective(a: string, b: string)
    requires Annotated(a) == Annotated(b)
    ensures a == b
  {
    assert a == Annotated(a)[..|a|];
    assert b == Annotated(b)[..|b|];
  }

  /** The object's short name does not match the pattern. */
  predicate ViolatesBg(obj: string) {
    !MatchesBg(ShortName(obj))
  }

  /** `invalid_names`: each object whose short name does not match, annotated, in order. */
  method BgViolations(objects: seq<string>) returns (found: seq<string>)
    ensures found == Gather(objects, ViolatesBg, Annotated, |objects|)
  {
    found := [];
    var i := 0;
    while i < |objects|
      invariant 0 <= i <= |objects|
      invariant found == Gather(objects, ViolatesBg, Annotated, i)
    {
      var obj := objects[i];
      if !MatchesBg(ShortName(obj)) {
        found := found + [Annotated(obj)];
      }
      i := i + 1;
    }
  }

  /** The items "check_bg_naming_convention" lists. */
  function BgViolationsOf(scene: Scene): seq<string> {
    var objects := Candidates(scene);
    Gather(objects, ViolatesBg, Annotated, |objects|)
  }

  /** `check_bg_naming_convention(check_info)`: one "error" result named and described by the
      check record when some object does not conform, else None; it never raises, since every
      check record has a name and a description. */
  method CheckBgNaming(info: CheckRecord, scene: Scene) returns (o: Outcome)
    ensures BgViolationsOf(scene) == [] ==> o == Absent
    ensures BgViolationsOf(scene) != [] ==>
              o == One(Report(Some(info.name), Some(|BgViolationsOf(scene)|), Some("error"), Some(info.description),
                              Some(BgViolationsOf(scene)), None))
  {
    var objects := Candidates(scene);
    var invalidNames := BgViolations(objects);
    if invalidNames != [] {
      o := One(Report(Some(info.name), Some(|invalidNames|), Some("error"), Some(info.description),
                      Some(invalidNames), None));
    } else {
      o := Absent;
    }
  }

  /** The BG check lists an object (annotated) exactly when it is a non-camera transform whose
      short name does not conform. */
  lemma BgViolationsListed(scene: Scene, obj: string)
    ensures Annotated(obj) in BgViolationsOf(scene)
            <==> obj in scene.transforms && !scene.isCamera(obj) && ViolatesBg(obj)
    ensures Distinct(scene.transforms) ==> Distinct(BgViolationsOf(scene))
  {
    var objects := Candidates(scene);
    CandidatesDistinct(scene);
    if Distinct(scene.transforms) {
      BgViolationsDistinct(objects, |objects|);
    }
    GatherMember(objects, ViolatesBg, Annotated, |objects|, Annotated(obj));
    CamerasExcluded(scene, obj);
    if Annotated(obj) in BgViolationsOf(scene) {
      var k :| 0 <= k < |objects| && ViolatesBg(objects[k]) && Annotated(objects[k]) == Annotated(obj);
      AnnotatedInjective(objects[k], obj);
    }
    if obj in scene.transforms && !scene.isCamera(obj) && ViolatesBg(obj) {
      var k :| 0 <= k < |objects| && objects[k] == obj;
    }
  }

  /** Objects listed once give items listed once, since different objects are annotated
      differently. */
  lemma {:induction false} BgViolationsDistinct(objects: seq<string>, n: nat)
    requires n <= |objects| && Distinct(objects)
    ensures Distinct(Gather(objects, ViolatesBg, Annotated, n))
  {
    if n > 0 {
      BgViolationsDistinct(objects, n - 1);
      var obj := objects[n - 1];
      var g := Gather(objects, ViolatesBg, Annotated, n - 1);
      if ViolatesBg(obj) {
        GatherMember(objects, ViolatesBg, Annotated, n - 1, Annotated(obj));
        if Annotated(obj) in g {
          var k :| 0 <= k < n - 1 && ViolatesBg(objects[k]) && Annotated(objects[k]) == Annotated(obj);
          AnnotatedInjective(objects[k], obj);
          assert false;
        }
        assert Gather(objects, ViolatesBg, Annotated, n) == g + [Annotated(obj)];
      }
    }
  }
}
