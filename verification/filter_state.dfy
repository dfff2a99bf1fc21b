/** The inspection-list filter panel: the multi-select toggle, the
    active-filter count, single-key updates and the visibility of the
    clear buttons. */
module FilterState {
  import Sequences

  // ---------------------------------------------------------------- multi-select

  /** Keeps every value other than `v`. */
  function Other(v: string): string -> bool {
    (x: string) => x != v
  }

  /** `s` with every occurrence of `v` removed, the rest in order. */
  function RemoveAll(s: seq<string>, v: string): (r: seq<string>)
    ensures forall x :: x in r <==> x in s && x != v
  {
    Sequences.Filter(s, Other(v))
  }

  /** Clicking an option: a selected value is removed, any other is appended. */
  function Toggle(selected: seq<string>, v: string): (r: seq<string>)
    ensures v in selected ==> v !in r && Sequences.Subsequence(r, selected)
    ensures v !in selected ==> r == selected + [v]
    ensures forall x :: x != v ==> (x in r <==> x in selected)
  {
    if v in selected then
      Sequences.FilterKeepsOrder(selected, Other(v));
      RemoveAll(selected, v)
    else selected + [v]
  }

  /** Toggling flips exactly the membership of the clicked value. */
  lemma ToggleFlips(selected: seq<string>, v: string, x: string)
    ensures x in Toggle(selected, v) <==> (x in selected) != (x == v)
  {
  }

  /** Toggling keeps a selection free of duplicates. */
  lemma ToggleNoDuplicates(selected: seq<string>, v: string)
    requires Sequences.NoDuplicates(selected)
    ensures Sequences.NoDuplicates(Toggle(selected, v))
  {
    if v in selected {
      Sequences.FilterNoDuplicates(selected, Other(v));
    } else {
      var r := selected + [v];
      forall i, j | 0 <= i < j < |r| ensures r[i] != r[j] {
        if j == |selected| {
          assert r[i] == selected[i];
        }
      }
    }
  }

  /** Toggling an unselected value twice restores the selection. */
  lemma ToggleTwice(selected: seq<string>, v: string)
    requires v !in selected
    ensures Toggle(Toggle(selected, v), v) == selected
  {
    var once := selected + [v];
    assert v in once;
    Sequences.FilterAppend(selected, [v], Other(v));
    Sequences.FilterAllPass(selected, Other(v));
    assert Sequences.Filter([v], Other(v)) == [];
  }

  /** The "Clear" link of a multi-select empties it. */
  function ClearAll(selected: seq<string>): (r: seq<string>)
    ensures |r| == 0
  {
    []
  }

  /** The "Clear" link is shown only when something is selected. */
  predicate ShowClear(selected: seq<string>) {
    |selected| > 0
  }

  /** An option's checkbox is ticked exactly when its value is selected. */
  predicate Checked(selected: seq<string>, v: string) {
    v in selected
  }

  /** After "Clear" no box is ticked and the link itself disappears; before it, the link shows iff some box is ticked. */
  lemma ClearUnchecksAll(selected: seq<string>)
    ensures !ShowClear(ClearAll(selected))
    ensures forall v :: !Checked(ClearAll(selected), v)
    ensures ShowClear(selected) <==> exists v :: Checked(selected, v)
  {
    if ShowClear(selected) {
      assert Checked(selected, selected[0]);
    }
  }

  /** After a toggle the clicked option's checkbox shows the opposite state. */
  lemma ToggleFlipsCheckbox(selected: seq<string>, v: string)
    ensures Checked(Toggle(selected, v), v) == !Checked(selected, v)
  {
  }

  // ---------------------------------------------------------------- filter panel

  datatype Filters = Filters(
    dateFrom: string,
    dateTo: string,
    decisions: seq<string>,
    stages: seq<string>,
    customer: string,
    search: string,
    ordering: string)

  /** A JavaScript truthiness test on a string: only the empty string is false. */
  function Truthy(s: string): nat {
    if s != "" then 1 else 0
  }

  function NonEmpty(s: seq<string>): nat {
    if |s| > 0 then 1 else 0
  }

  /** The badge number: how many of the six filter fields are set; ordering never counts. */
  function ActiveCount(f: Filters): (n: nat)
    ensures n <= 6
    ensures n == 0 <==>
      f.dateFrom == "" && f.dateTo == "" && f.decisions == [] && f.stages == []
      && f.customer == "" && f.search == ""
  {
    Truthy(f.dateFrom) + Truthy(f.dateTo) + NonEmpty(f.decisions) + NonEmpty(f.stages)
      + Truthy(f.customer) + Truthy(f.search)
  }

  /** The sort order is not a filter: changing it leaves the count alone. */
  lemma OrderingNotCounted(f: Filters, o: string)
    ensures ActiveCount(f.(ordering := o)) == ActiveCount(f)
  {
  }


  /** The names of the filter fields that `updateFilter` may be called with. */
  datatype Key = DateFrom | DateTo | Decisions | Stages | Customer | Search | Ordering

  /** The value for a key: a list for the two multi-selects, a string for the rest. */
  datatype Value = Str(s: string) | List(xs: seq<string>)

  predicate Fits(k: Key, v: Value) {
    if k == Decisions || k == Stages then v.List? else v.Str?
  }

  function Get(f: Filters, k: Key): (v: Value)
    ensures Fits(k, v)
  {
    match k
    case DateFrom => Str(f.dateFrom)
    case DateTo => Str(f.dateTo)
    case Decisions => List(f.decisions)
    case Stages => List(f.stages)
    case Customer => Str(f.customer)
    case Search => Str(f.search)
    case Ordering => Str(f.ordering)
  }

  /** Copies the filters and overwrites the one field `k` with `v`. */
  function UpdateFilter(f: Filters, k: Key, v: Value): (r: Filters)
    requires Fits(k, v)
    ensures Get(r, k) == v
    ensures forall other :: other != k ==> Get(r, other) == Get(f, other)
  {
    match k
    case DateFrom => f.(dateFrom := v.s)
    case DateTo => f.(dateTo := v.s)
    case Decisions => f.(decisions := v.xs)
    case Stages => f.(stages := v.xs)
    case Customer => f.(customer := v.s)
    case Search => f.(search := v.s)
    case Ordering => f.(ordering := v.s)
  }

  /** Two filter states that agree on every key are the same state. */
  lemma GetDetermines(f: Filters, g: Filters)
    requires forall k :: Get(f, k) == Get(g, k)
    ensures f == g
  {
    assert Get(f, DateFrom) == Get(g, DateFrom);
    assert Get(f, DateTo) == Get(g, DateTo);
    assert Get(f, Decisions) == Get(g, Decisions);
    assert Get(f, Stages) == Get(g, Stages);
    assert Get(f, Customer) == Get(g, Customer);
    assert Get(f, Search) == Get(g, Search);
    assert Get(f, Ordering) == Get(g, Ordering);
  }

  /** Writing back the value a key already holds changes nothing. */
  lemma UpdateSameValue(f: Filters, k: Key)
    ensures UpdateFilter(f, k, Get(f, k)) == f
  {
    GetDetermines(UpdateFilter(f, k, Get(f, k)), f);
  }

  /** Updating a key twice keeps only the second value. */
  lemma UpdateOverwrites(f: Filters, k: Key, v: Value, w: Value)
    requires Fits(k, v) && Fits(k, w)
    ensures UpdateFilter(UpdateFilter(f, k, v), k, w) == UpdateFilter(f, k, w)
  {
    GetDetermines(UpdateFilter(UpdateFilter(f, k, v), k, w), UpdateFilter(f, k, w));
  }

  /** A value that counts as a set filter: a non-empty string or a non-empty list. */
  predicate IsSet(v: Value) {
    (v.Str? && v.s != "") || (v.List? && v.xs != [])
  }

  /** The unset value of a key: an empty list for the two multi-selects, an empty string for the rest. */
  function Unset(k: Key): (v: Value)
    ensures Fits(k, v) && !IsSet(v)
  {
    if k == Decisions || k == Stages then List([]) else Str("")
  }

  /** Each of the six filter keys adds one to the count when set and nothing when unset, whatever
      the other keys hold; the ordering key adds nothing either way. So the count is the number of
      set filter fields. */
  lemma KeyCountsOnce(f: Filters, k: Key, v: Value)
    requires Fits(k, v)
    ensures k != Ordering ==>
      ActiveCount(UpdateFilter(f, k, v)) == ActiveCount(UpdateFilter(f, k, Unset(k))) + (if IsSet(v) then 1 else 0)
    ensures k == Ordering ==> ActiveCount(UpdateFilter(f, k, v)) == ActiveCount(f)
  {
  }

  /** A non-empty search adds exactly one to the count. */
  lemma SearchCountsOnce(f: Filters, s: string)
    requires s != ""
    ensures ActiveCount(f.(search := s)) == ActiveCount(f.(search := "")) + 1
  {
    KeyCountsOnce(f, Search, Str(s));
  }

  /** The date picker's Clear as written: both updates start from the same rendered filters, and the
      parent keeps only the object handed over last, so the object built by the first update (the
      one with the cleared start date) is discarded and only the cleared end date takes effect. */
  function ClearDatesAsWritten(f: Filters): (r: Filters)
    ensures r.dateTo == "" && r.dateFrom == f.dateFrom
  {
    UpdateFilter(f, DateTo, Str(""))
  }

  /** A set start date survives the written Clear, and so does the badge. */
  lemma ClearDatesKeepsStart(f: Filters)
    requires f.dateFrom != ""
    ensures ClearDatesAsWritten(f).dateFrom == f.dateFrom
    ensures ShowBadge(ClearDatesAsWritten(f))
  {
  }

  /** A January range keeps its start date after the written Clear. */
  lemma JanuaryRangeNotCleared(f: Filters)
    requires f.dateFrom == "2025-01-01" && f.dateTo == "2025-01-31"
    ensures ClearDatesAsWritten(f).dateFrom == "2025-01-01"
    ensures ClearDatesAsWritten(f) != f.(dateFrom := "", dateTo := "")
  {
  }

  /** The Clear as intended: the second update applied to the result of the first. */
  function ClearDates(f: Filters): (r: Filters)
    ensures Get(r, DateFrom) == Str("") && Get(r, DateTo) == Str("")
    ensures forall k :: k != DateFrom && k != DateTo ==> Get(r, k) == Get(f, k)
  {
    UpdateFilter(UpdateFilter(f, DateFrom, Str("")), DateTo, Str(""))
  }

  /** After the intended Clear no date filter is counted, and the other fields still count as before. */
  lemma ClearDatesUncounts(f: Filters)
    ensures ClearDates(f) == f.(dateFrom := "", dateTo := "")
    ensures ActiveCount(ClearDates(f)) == ActiveCount(f) - Truthy(f.dateFrom) - Truthy(f.dateTo)
    ensures ClearDates(ClearDates(f)) == ClearDates(f)
  {
    GetDetermines(ClearDates(f), f.(dateFrom := "", dateTo := ""));
  }

  /** The badge next to the panel title appears only when some filter is active. */
  predicate ShowBadge(f: Filters) {
    ActiveCount(f) > 0
  }

  /** The "Clear All Filters" button sits inside the expanded panel and needs an active filter. */
  predicate ShowClearAll(expanded: bool, f: Filters) {
    expanded && ActiveCount(f) > 0
  }

  /** The badge shows iff some filter field is set, and then it shows at most six. */
  lemma BadgeVisibility(f: Filters)
    ensures ShowBadge(f) <==>
      f.dateFrom != "" || f.dateTo != "" || f.decisions != [] || f.stages != [] || f.customer != "" || f.search != ""
    ensures ShowBadge(f) ==> 1 <= ActiveCount(f) <= 6
  {
  }

  /** The clear-all button shows iff the panel is open and some filter field is set. */
  lemma ClearAllVisibility(expanded: bool, f: Filters)
    ensures ShowClearAll(expanded, f) <==>
      expanded && (f.dateFrom != "" || f.dateTo != "" || f.decisions != [] || f.stages != []
                   || f.customer != "" || f.search != "")
  {
  }
}
