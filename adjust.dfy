/** The correctives (`adjust_*`) and the unused-influence check whose items one of them parses.
    A corrective is modelled by the host commands it issues, on the assumption that the host
    accepts them: the per-item commands sit in a `try/except: pass`, so their failures are not
    observable, but a failing selection or command of the selection-based correctives raises. */
module Adjust {
  import opened Wrappers
  import opened Strings
  import opened Records

  /** A scene command a corrective issues. */
  datatype HostCall =
    | Select(targets: seq<string>)
    | Delete
    | Triangulate
    | FreezeTransforms
    | MergeEdgeVertices(edge: string)
    | FixNegativeScale(obj: string)
    | RemoveInfluence(skin: string, influence: string)

  /** The separator between skin cluster and influence in an item of "Unused Influences". */
  const Arrow: string := " -> "

  /** `f"{skin} -> {inf}"`. */
  function InfluenceItem(skin: string, influence: string): string {
    skin + Arrow + influence
  }

  /** What `adjust_unused_influences` does with one item: split it on " -> " and remove the
      influence when exactly two parts come out; any other item is ignored. */
  function InfluenceCalls(item: string): (calls: seq<HostCall>)
    ensures |calls| <= 1
  {
    var parts := Split(item, Arrow);
    if |parts| == 2 then [RemoveInfluence(parts[0], parts[1])] else []
  }

  /** An item makes the corrective remove `influence` from `skin` exactly when it is the check's
      item for that pair and splitting it gives the pair back; every other item is ignored. */
  lemma InfluenceCallsExactly(item: string, skin: string, influence: string)
    ensures InfluenceCalls(item) == [RemoveInfluence(skin, influence)]
            <==> item == InfluenceItem(skin, influence) && CleanBefore(skin, Arrow) && !Contains(influence, Arrow)
  {
    if InfluenceCalls(item) == [RemoveInfluence(skin, influence)] {
      var parts := Split(item, Arrow);
      assert |parts| == 2 && parts[0] == skin && parts[1] == influence;
      var i := FindFirst(item, Arrow, 0).value;
      var rest := item[i + |Arrow|..];
      assert item[..i] == skin;
      assert Split(rest, Arrow) == [influence];
      assert FindFirst(rest, Arrow, 0).None?;
      assert rest == influence;
      if Contains(influence, Arrow) {
        SplitWithSep(influence, Arrow);
        assert false;
      }
      assert item == item[..i] + item[i..i + |Arrow|] + item[i + |Arrow|..];
      InfluenceRoundTrip(skin, influence);
    } else {
      InfluenceRoundTrip(skin, influence);
    }
  }

  /** The commands issued for one item by the correctives that work item by item. */
  function ItemCalls(kind: Corrective, item: string): seq<HostCall> {
    match kind
    case ZeroEdgeLength => [MergeEdgeVertices(item)]
    case NegativeScale => [FixNegativeScale(item)]
    case UnusedInfluences => InfluenceCalls(item)
    case _ => []
  }

  /** The commands issued for the first `n` items, in item order. */
  function CallsUpTo(kind: Corrective, items: seq<string>, n: nat): seq<HostCall>
    requires n <= |items|
  {
    if n == 0 then [] else CallsUpTo(kind, items, n - 1) + ItemCalls(kind, items[n - 1])
  }

  /** Whether the corrective acts on all items at once, through the selection. */
  predicate ActsOnSelection(kind: Corrective) {
    kind.LaminaFaces? || kind.ZeroAreaFaces? || kind.Ngons? || kind.NonFrozenTransforms?
  }

  /** Every command the corrective `kind` issues for `items`: nothing for an empty list, else
      a selection followed by one command, or the per-item commands in item order. */
  function Plan(kind: Corrective, items: seq<string>): (calls: seq<HostCall>)
    ensures items == [] ==> calls == []
    ensures items != [] && ActsOnSelection(kind) ==> |calls| == 2 && calls[0] == Select(items)
  {
    if items == [] then []
    else match kind
      case LaminaFaces => [Select(items), Delete]
      case ZeroAreaFaces => [Select(items), Delete]
      case Ngons => [Select(items), Triangulate]
      case NonFrozenTransforms => [Select(items), FreezeTransforms]
      case _ => CallsUpTo(kind, items, |items|)
  }

  /** `adjust_*(items)`: returns whether there was anything to fix and the commands issued. The
      per-item correctives return `True` even when every one of their commands failed. */
  method Apply(kind: Corrective, items: seq<string>) returns (fixed: bool, calls: seq<HostCall>)
    ensures fixed <==> |items| > 0
    ensures calls == Plan(kind, items)
  {
    if |items| == 0 {
      return false, [];
    }
    if kind.LaminaFaces? || kind.ZeroAreaFaces? {
      calls := [Select(items), Delete];
    } else if kind.Ngons? {
      calls := [Select(items), Triangulate];
    } else if kind.NonFrozenTransforms? {
      calls := [Select(items), FreezeTransforms];
    } else {
      calls := [];
      var i := 0;
      while i < |items|
        invariant 0 <= i <= |items|
        invariant calls == CallsUpTo(kind, items, i)
      {
        var item := items[i];
        match kind {
          case ZeroEdgeLength =>
            calls := calls + [MergeEdgeVertices(item)];
          case NegativeScale =>
            calls := calls + [FixNegativeScale(item)];
          case UnusedInfluences =>
            var parts := Split(item, Arrow);
            if |parts| == 2 {
              calls := calls + [RemoveInfluence(parts[0], parts[1])];
            }
          case _ =>
        }
        i := i + 1;
      }
    }
    fixed := true;
  }

  /** The per-item correctives for merging edges and fixing scale issue one command per item,
      addressed to that item. */
  lemma {:induction false} OneCallPerItem(kind: Corrective, items: seq<string>, n: nat)
    requires kind.ZeroEdgeLength? || kind.NegativeScale?
    requires n <= |items|
    ensures |CallsUpTo(kind, items, n)| == n
    ensures forall k :: 0 <= k < n ==> CallsUpTo(kind, items, n)[k] == ItemCalls(kind, items[k])[0]
  {
    if n > 0 {
      OneCallPerItem(kind, items, n - 1);
    }
  }

  /** Splitting "skin -> influence" gives the pair back exactly when no " -> " starts inside
      `skin + " -> "` before the separator that joined them, and `influence` holds none. */
  lemma InfluenceRoundTrip(skin: string, influence: string)
    ensures Split(InfluenceItem(skin, influence), Arrow) == [skin, influence]
            <==> CleanBefore(skin, Arrow) && !Contains(influence, Arrow)
  {
    if CleanBefore(skin, Arrow) {
      SplitCons(skin, Arrow, influence);
      if Contains(influence, Arrow) {
        SplitWithSep(influence, Arrow);
      } else {
        SplitWithoutSep(influence, Arrow);
      }
    } else {
      SplitCutsEarly(skin, Arrow, influence);
    }
  }

  /** Names without spaces, as Maya node names are, always survive the round trip. */
  lemma InfluenceRoundTripNoSpace(skin: string, influence: string)
    requires NoChar(skin, ' ') && NoChar(influence, ' ')
    ensures Split(InfluenceItem(skin, influence), Arrow) == [skin, influence]
  {
    forall j | 0 <= j < |skin|
      ensures !OccursAt(skin + Arrow, Arrow, j)
    {
      assert (skin + Arrow)[j] == skin[j];
    }
    forall i | 0 <= i <= |influence|
      ensures !OccursAt(influence, Arrow, i)
    {
      if i < |influence| {
        assert influence[i] != ' ';
      }
    }
    InfluenceRoundTrip(skin, influence);
  }

  /** Lacking " -> " in both names is not enough: a skin cluster name ending in " ->" is cut
      one separator early, so "a ->" and "b" come back as "a" and "-> b". */
  lemma ArrowSuffixBreaksRoundTrip()
    ensures Split(InfluenceItem("a ->", "b"), Arrow) != ["a ->", "b"]
  {
    assert ("a ->" + Arrow)[1..5] == Arrow;
    assert OccursAt("a ->" + Arrow, Arrow, 1);
    SplitCutsEarly("a ->", Arrow, "b");
  }

  /** `unused.append(f"{skin} -> {inf}")` over the first `n` unused (skin, influence) pairs. */
  function InfluenceItems(unused: seq<(string, string)>, n: nat): (items: seq<string>)
    requires n <= |unused|
    ensures |items| == n
    ensures forall k :: 0 <= k < n ==> items[k] == InfluenceItem(unused[k].0, unused[k].1)
  {
    if n == 0 then [] else InfluenceItems(unused, n - 1) + [InfluenceItem(unused[n - 1].0, unused[n - 1].1)]
  }

  /** The removals that undo the first `n` unused pairs, in order. */
  function Removals(unused: seq<(string, string)>, n: nat): seq<HostCall>
    requires n <= |unused|
  {
    if n == 0 then [] else Removals(unused, n - 1) + [RemoveInfluence(unused[n - 1].0, unused[n - 1].1)]
  }

  /** The corrective removes the influence named in a space-free item. */
  lemma InfluenceCallsOfItem(skin: string, influence: string)
    requires NoChar(skin, ' ') && NoChar(influence, ' ')
    ensures InfluenceCalls(InfluenceItem(skin, influence)) == [RemoveInfluence(skin, influence)]
  {
    InfluenceRoundTripNoSpace(skin, influence);
  }

  /** Names without spaces in every pair. */
  predicate SpaceFree(unused: seq<(string, string)>) {
    forall k :: 0 <= k < |unused| ==> NoChar(unused[k].0, ' ') && NoChar(unused[k].1, ' ')
  }

  /** The corrective removes exactly the influences the check reported, in report order. */
  lemma {:induction false} AdjustRemovesReported(unused: seq<(string, string)>, n: nat)
    requires n <= |unused| && SpaceFree(unused)
    ensures CallsUpTo(UnusedInfluences, InfluenceItems(unused, |unused|), n) == Removals(unused, n)
  {
    if n > 0 {
      AdjustRemovesReported(unused, n - 1);
      var items := InfluenceItems(unused, |unused|);
      var (skin, influence) := unused[n - 1];
      assert items[n - 1] == InfluenceItem(skin, influence);
      InfluenceCallsOfItem(skin, influence);
    }
  }

  /** `check_unused_influences(check_info)`, given the (skin cluster, influence) pairs the scene
      reports as carrying no weight, in scene order. */
  method CheckUnusedInfluences(info: CheckRecord, unused: seq<(string, string)>) returns (o: Outcome)
    ensures o == RecordReport(info, InfluenceItems(unused, |unused|), Some(UnusedInfluences))
  {
    var items: seq<string> := [];
    var i := 0;
    while i < |unused|
      invariant 0 <= i <= |unused|
      invariant items == InfluenceItems(unused, i)
    {
      var (skin, influence) := unused[i];
      items := items + [InfluenceItem(skin, influence)];
      i := i + 1;
    }
    if |items| > 0 {
      match info.severity {
        case None =>
          o := Raised("severity");
        case Some(severity) =>
          o := One(Report(Some(info.name), Some(|items|), Some(severity), Some(info.description), Some(items),
                          Some(UnusedInfluences)));
      }
    } else {
      o := Absent;
    }
  }

  /** Running the corrective on what the check reported removes each reported influence once. */
  lemma CheckThenAdjust(info: CheckRecord, unused: seq<(string, string)>)
    requires SpaceFree(unused) && |unused| > 0 && info.severity.Some?
    ensures var o := RecordReport(info, InfluenceItems(unused, |unused|), Some(UnusedInfluences));
            o.One? && o.report.adjust == Some(UnusedInfluences)
            && Plan(UnusedInfluences, o.report.items.value) == Removals(unused, |unused|)
  {
    AdjustRemovesReported(unused, |unused|);
  }
}
