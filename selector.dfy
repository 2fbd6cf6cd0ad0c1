/** The check selection window: one category widget per category of the loaded configuration,
    one checkbox per check item, and the run button that hands the checked items to a callback. */
module Selector {
  import opened Wrappers
  import opened Records

  /** What reading "<config_name>.json" from the configs directory gives. */
  datatype ConfigSource =
    | Missing
    | Unreadable
    | Parsed(config: Config)

  /** The configuration used when the file is missing or cannot be parsed. */
  const DefaultConfig: Config := Config(Some("Default Checks"), Some("デフォルトのチェック項目"), Some([]))

  /** `load_check_config(config_name)`: the parsed file, or the default configuration. */
  function LoadCheckConfig(source: ConfigSource): (c: Config)
    ensures source.Parsed? ==> c == source.config
    ensures !source.Parsed? ==> c == DefaultConfig
  {
    match source
    case Parsed(config) => config
    case _ => DefaultConfig
  }

  /** Without a readable configuration there are no categories, so nothing can be selected. */
  lemma FallbackHasNoCategories(source: ConfigSource)
    requires !source.Parsed?
    ensures CategoriesOf(LoadCheckConfig(source)) == []
  {
  }

  /** The record `get_selected_checks` builds for a checked item: the widget's category and the
      item's name and description; the item's severity, else "warning"; the item's function name,
      else "". */
  function SelectedRecord(category: string, item: ConfigItem): (r: CheckRecord)
    ensures r.category == category && r.name == item.name && r.description == item.description
    ensures r.severity.Some?
    ensures item.severity.Some? ==> r.severity == item.severity
    ensures item.severity.None? ==> r.severity == Some("warning")
    ensures item.functionName.Some? ==> r.functionName == item.functionName.value
    ensures item.functionName.None? ==> r.functionName == ""
  {
    CheckRecord(category, item.name, item.description, Some(item.severity.GetOr("warning")), item.functionName.GetOr(""))
  }

  /** The records for the checked items among the first `n`, in item order. */
  function SelectedUpTo(category: string, items: seq<ConfigItem>, states: seq<bool>, n: nat): (r: seq<CheckRecord>)
    requires n <= |items| && n <= |states|
    ensures |r| <= n
  {
    if n == 0 then []
    else SelectedUpTo(category, items, states, n - 1)
         + (if states[n - 1] then [SelectedRecord(category, items[n - 1])] else [])
  }

  /** A record is selected exactly when it is the record of a checked item. */
  lemma {:induction false} SelectedMember(category: string, items: seq<ConfigItem>, states: seq<bool>, n: nat, r: CheckRecord)
    requires n <= |items| && n <= |states|
    ensures r in SelectedUpTo(category, items, states, n)
            <==> exists k :: 0 <= k < n && states[k] && r == SelectedRecord(category, items[k])
  {
    if n > 0 {
      SelectedMember(category, items, states, n - 1, r);
    }
  }

  /** With every box checked, each item gives its record, in item order. */
  lemma {:induction false} AllCheckedSelectsAll(category: string, items: seq<ConfigItem>, states: seq<bool>, n: nat)
    requires n <= |items| && n <= |states|
    requires forall k :: 0 <= k < n ==> states[k]
    ensures |SelectedUpTo(category, items, states, n)| == n
    ensures forall k :: 0 <= k < n ==> SelectedUpTo(category, items, states, n)[k] == SelectedRecord(category, items[k])
  {
    if n > 0 {
      AllCheckedSelectsAll(category, items, states, n - 1);
    }
  }

  /** With no box checked, nothing is selected. */
  lemma {:induction false} NoneCheckedSelectsNothing(category: string, items: seq<ConfigItem>, states: seq<bool>, n: nat)
    requires n <= |items| && n <= |states|
    requires forall k :: 0 <= k < n ==> !states[k]
    ensures SelectedUpTo(category, items, states, n) == []
  {
    if n > 0 {
      NoneCheckedSelectsNothing(category, items, states, n - 1);
    }
  }

  /** Some box is checked. */
  predicate AnyChecked(states: seq<bool>) {
    exists k :: 0 <= k < |states| && states[k]
  }

  /** The label of the select-all button once no box was checked before the toggle. */
  const DeselectAllLabel: string := "すべて解除"
  /** The initial label, and the label once some box was checked before the toggle. */
  const SelectAllLabel: string := "すべて選択"

  /** `CheckCategoryWidget`: a category name, its check items and one checkbox per item. */
  class CategoryWidget {
    const categoryName: string
    const items: seq<ConfigItem>
    /** The checkbox states, one per item. */
    const checkboxes: array<bool>
    var buttonLabel: string

    /** One checkbox per item. */
    predicate Valid() {
      checkboxes.Length == |items|
    }

    /** The records `get_selected_checks` returns in the current state. */
    function Selected(): seq<CheckRecord>
      requires Valid()
      reads checkboxes
    {
      SelectedUpTo(categoryName, items, checkboxes[..], |items|)
    }

    /** Every checkbox starts checked. */
    constructor(categoryName: string, items: seq<ConfigItem>)
      ensures Valid() && this.categoryName == categoryName && this.items == items
      ensures fresh(checkboxes)
      ensures forall k :: 0 <= k < checkboxes.Length ==> checkboxes[k]
      ensures buttonLabel == SelectAllLabel
    {
      this.categoryName := categoryName;
      this.items := items;
      checkboxes := new bool[|items|](_ => true);
      buttonLabel := SelectAllLabel;
    }

    /** `toggle_select_all()`: if any box is checked all are cleared, otherwise all are checked;
        the button then offers the opposite action. */
    method ToggleSelectAll()
      modifies this, checkboxes
      ensures forall k :: 0 <= k < checkboxes.Length ==> checkboxes[k] == !AnyChecked(old(checkboxes[..]))
      ensures buttonLabel == if AnyChecked(old(checkboxes[..])) then SelectAllLabel else DeselectAllLabel
    {
      var anyChecked := false;
      var i := 0;
      while i < checkboxes.Length
        invariant 0 <= i <= checkboxes.Length
        invariant !anyChecked
        invariant forall k :: 0 <= k < i ==> !checkboxes[k]
      {
        if checkboxes[i] {
          anyChecked := true;
          break;
        }
        i := i + 1;
      }
      assert anyChecked <==> AnyChecked(checkboxes[..]);
      ghost var before := checkboxes[..];
      var j := 0;
      while j < checkboxes.Length
        invariant 0 <= j <= checkboxes.Length
        invariant anyChecked <==> AnyChecked(before)
        invariant forall k :: 0 <= k < j ==> checkboxes[k] == !anyChecked
      {
        checkboxes[j] := !anyChecked;
        j := j + 1;
      }
      buttonLabel := if !anyChecked then DeselectAllLabel else SelectAllLabel;
    }

    /** `get_selected_checks()`: the records of the checked items, in item order. */
    method GetSelectedChecks() returns (selected: seq<CheckRecord>)
      requires Valid()
      ensures selected == Selected()
    {
      selected := [];
      var i := 0;
      while i < |items|
        invariant 0 <= i <= |items|
        invariant selected == SelectedUpTo(categoryName, items, checkboxes[..], i)
      {
        if checkboxes[i] {
          selected := selected + [SelectedRecord(categoryName, items[i])];
        }
        i := i + 1;
      }
    }
  }

  /** After a toggle all boxes agree, so a widget selects either all its items or none. */
  lemma UniformSelection(w: CategoryWidget, checked: bool)
    requires w.Valid()
    requires forall k :: 0 <= k < w.checkboxes.Length ==> w.checkboxes[k] == checked
    ensures checked ==> |w.Selected()| == |w.items|
    ensures !checked ==> w.Selected() == []
  {
    if checked {
      AllCheckedSelectsAll(w.categoryName, w.items, w.checkboxes[..], |w.items|);
    } else {
      NoneCheckedSelectsNothing(w.categoryName, w.items, w.checkboxes[..], |w.items|);
    }
  }

  /** Every widget holds one checkbox per item. */
  predicate AllValid(widgets: seq<CategoryWidget>) {
    forall k :: 0 <= k < |widgets| ==> widgets[k].Valid()
  }

  /** The window's selection over the first `n` widgets: their selections concatenated in
      category order. */
  function SelectionUpTo(widgets: seq<CategoryWidget>, n: nat): seq<CheckRecord>
    requires n <= |widgets| && AllValid(widgets)
    reads set k | 0 <= k < |widgets| :: widgets[k].checkboxes
  {
    if n == 0 then [] else SelectionUpTo(widgets, n - 1) + widgets[n - 1].Selected()
  }

  /** `CheckSelectorUI`: the category widgets, the last selection, the callback and whether the
      window is still open. The callback's calls are recorded rather than performed. */
  class CheckSelectorUI {
    var categoryWidgets: seq<CategoryWidget>
    var selectedChecks: seq<CheckRecord>
    const hasCallback: bool
    /** The selections handed to the callback, in call order. */
    var callbackCalls: seq<seq<CheckRecord>>
    var closed: bool
    /** Whether the "nothing selected" warning was shown. */
    var warned: bool

    /** Every widget holds one checkbox per item, and no two widgets share their checkboxes. */
    predicate Valid()
      reads this
    {
      AllValid(categoryWidgets)
      && forall i, j :: 0 <= i < j < |categoryWidgets| ==> categoryWidgets[i].checkboxes != categoryWidgets[j].checkboxes
    }

    /** The window's current selection. */
    function Selection(): seq<CheckRecord>
      requires Valid()
      reads this, set k | 0 <= k < |categoryWidgets| :: categoryWidgets[k].checkboxes
    {
      SelectionUpTo(categoryWidgets, |categoryWidgets|)
    }

    /** Loads the configuration and adds one widget per category, in the file's order. */
    constructor(source: ConfigSource, hasCallback: bool)
      ensures Valid()
      ensures |categoryWidgets| == |CategoriesOf(LoadCheckConfig(source))|
      ensures forall k :: 0 <= k < |categoryWidgets| ==>
                categoryWidgets[k].categoryName == CategoriesOf(LoadCheckConfig(source))[k].name
                && categoryWidgets[k].items == CategoriesOf(LoadCheckConfig(source))[k].items
                && forall j :: 0 <= j < categoryWidgets[k].checkboxes.Length ==> categoryWidgets[k].checkboxes[j]
      ensures forall k :: 0 <= k < |categoryWidgets| ==> fresh(categoryWidgets[k]) && fresh(categoryWidgets[k].checkboxes)
      ensures selectedChecks == [] && callbackCalls == [] && !closed && !warned
      ensures this.hasCallback == hasCallback
    {
      var categories := CategoriesOf(LoadCheckConfig(source));
      var widgets: seq<CategoryWidget> := [];
      var i := 0;
      while i < |categories|
        invariant 0 <= i <= |categories| && |widgets| == i
        invariant AllValid(widgets)
        invariant forall k :: 0 <= k < i ==>
                    widgets[k].categoryName == categories[k].name && widgets[k].items == categories[k].items
                    && forall j :: 0 <= j < widgets[k].checkboxes.Length ==> widgets[k].checkboxes[j]
        invariant forall k :: 0 <= k < i ==> fresh(widgets[k]) && fresh(widgets[k].checkboxes)
        invariant forall k, l :: 0 <= k < l < i ==> widgets[k].checkboxes != widgets[l].checkboxes
      {
        var widget := new CategoryWidget(categories[i].name, categories[i].items);
        widgets := widgets + [widget];
        i := i + 1;
      }
      categoryWidgets := widgets;
      selectedChecks := [];
      this.hasCallback := hasCallback;
      callbackCalls := [];
      closed := false;
      warned := false;
    }

    /** `get_selected_checks()`: each widget's selection, in category order. */
    method GetSelectedChecks() returns (all: seq<CheckRecord>)
      requires Valid()
      ensures all == Selection()
    {
      all := [];
      var i := 0;
      while i < |categoryWidgets|
        invariant 0 <= i <= |categoryWidgets|
        invariant all == SelectionUpTo(categoryWidgets, i)
      {
        var selected := categoryWidgets[i].GetSelectedChecks();
        all := all + selected;
        i := i + 1;
      }
    }

    /** `on_run_clicked()`: with nothing selected only a warning is shown; otherwise the
        selection goes to the callback, if any, and the window closes. */
    method OnRunClicked()
      requires Valid()
      modifies this
      ensures Valid() && categoryWidgets == old(categoryWidgets)
      ensures selectedChecks == old(Selection())
      ensures selectedChecks == [] ==> warned && callbackCalls == old(callbackCalls) && closed == old(closed)
      ensures selectedChecks != [] ==>
                warned == old(warned) && closed
                && callbackCalls == old(callbackCalls) + (if hasCallback then [selectedChecks] else [])
    {
      selectedChecks := GetSelectedChecks();
      if selectedChecks == [] {
        warned := true;
        return;
      }
      if hasCallback {
        callbackCalls := callbackCalls + [selectedChecks];
      }
      closed := true;
    }
  }

  /** A record the window selects comes from a checked item of one of its categories, and is
      labelled with that category. */
  lemma {:induction false} SelectionMember(widgets: seq<CategoryWidget>, n: nat, r: CheckRecord)
    requires n <= |widgets| && AllValid(widgets)
    ensures r in SelectionUpTo(widgets, n)
            <==> exists i :: 0 <= i < n && r in widgets[i].Selected()
  {
    if n > 0 {
      SelectionMember(widgets, n - 1, r);
    }
  }

  /** Opening the window on a configuration that is missing or unreadable and pressing run: there
      is nothing to select, so only the warning is shown; the callback is not called and the
      window stays open. */
  method FallbackRunOnlyWarns(source: ConfigSource, hasCallback: bool) returns (ui: CheckSelectorUI)
    requires !source.Parsed?
    ensures ui.categoryWidgets == [] && ui.selectedChecks == []
    ensures ui.warned && ui.callbackCalls == [] && !ui.closed
  {
    FallbackHasNoCategories(source);
    ui := new CheckSelectorUI(source, hasCallback);
    ui.OnRunClicked();
  }

  /** Opening the window and pressing the select-all button of category `k`: every box starts
      checked, so that category is cleared, and the other categories keep all their boxes. */
  method DeselectCategory(source: ConfigSource, hasCallback: bool, k: nat) returns (ui: CheckSelectorUI)
    requires k < |CategoriesOf(LoadCheckConfig(source))|
    ensures ui.Valid() && |ui.categoryWidgets| == |CategoriesOf(LoadCheckConfig(source))|
    ensures ui.categoryWidgets[k].Selected() == []
    ensures forall i :: 0 <= i < |ui.categoryWidgets| && i != k ==>
              |ui.categoryWidgets[i].Selected()| == |ui.categoryWidgets[i].items|
  {
    ui := new CheckSelectorUI(source, hasCallback);
    var w := ui.categoryWidgets[k];
    if w.checkboxes.Length > 0 {
      assert w.checkboxes[..][0];
    }
    w.ToggleSelectAll();
    UniformSelection(w, false);
    forall i | 0 <= i < |ui.categoryWidgets| && i != k
      ensures |ui.categoryWidgets[i].Selected()| == |ui.categoryWidgets[i].items|
    {
      UniformSelection(ui.categoryWidgets[i], true);
    }
  }
}
