/** The inspection list's server-side filter: an optional creation-date
    range, multi-choice decision and stage filters, a customer filter and a
    free-text search, all applied together to the listed inspections. */
module InspectionSearch {
  import opened Wrappers
  import Text
  import Sequences

  /** A moment as a calendar day number and the seconds elapsed since that day's midnight. */
  datatype Instant = Instant(day: int, second: nat)

  ghost predicate ValidInstant(t: Instant) {
    t.second < 86400
  }

  /** The listed fields of an inspection; the customer and the creator may be missing. */
  datatype Record = Record(
    style: string,
    poNumber: string,
    customerName: Option<string>,
    creatorName: Option<string>,
    customerId: Option<nat>,
    decision: Option<string>,
    stage: string,
    created: Instant)

  /** The choices the two multi-choice filters accept. */
  const DecisionChoices: seq<string> := ["Accepted", "Rejected", "Represent"]
  const StageChoices: seq<string> := ["Dev", "Proto", "Fit", "SMS", "Size Set", "PPS", "Shipment Sample"]

  /** The query parameters; an absent parameter is None or an empty list. */
  datatype Query = Query(
    after: Option<int>,
    before: Option<int>,
    decisions: seq<string>,
    stages: seq<string>,
    customer: Option<nat>,
    search: string)

  const NoQuery := Query(None, None, [], [], None, "")

  // ---------------------------------------------------------------- search

  /** A present field contains the text, ignoring ASCII case. */
  predicate FieldMatches(field: Option<string>, text: string) {
    field.Some? && Text.ContainsIgnoringCase(field.value, text)
  }

  /** An empty search keeps everything; otherwise one of the four searched fields must contain it. */
  predicate SearchMatches(r: Record, text: string) {
    text == ""
    || Text.ContainsIgnoringCase(r.style, text)
    || Text.ContainsIgnoringCase(r.poNumber, text)
    || FieldMatches(r.customerName, text)
    || FieldMatches(r.creatorName, text)
  }

  /** The search as the server applies it: the form field strips surrounding whitespace first,
      so a blank search keeps everything. */
  predicate SearchKeeps(r: Record, search: string) {
    SearchMatches(r, Text.Trim(search))
  }

  /** A search text occurring in the style, in any letter case, finds the record. */
  lemma StyleHitFound(r: Record, text: string, i: int)
    requires Text.OccursAt(Text.Lower(r.style), Text.Lower(text), i)
    ensures SearchMatches(r, text)
  {
    Text.OccursImpliesContains(Text.Lower(r.style), Text.Lower(text), i);
  }

  /** A present name field in which the folded text occurs nowhere does not match. */
  lemma FieldMiss(field: Option<string>, text: string)
    requires field.Some? ==> forall i :: !Text.OccursAt(Text.Lower(field.value), Text.Lower(text), i)
    ensures !FieldMatches(field, text)
  {
    if FieldMatches(field, text) {
      Text.ContainsImpliesOccurs(Text.Lower(field.value), Text.Lower(text));
    }
  }

  /** A search whose stripped text is not blank and occurs, in any letter case, in none of the
      four fields (a missing name counting as no occurrence) drops the record. */
  lemma SearchMissDrops(r: Record, search: string)
    requires Text.Trim(search) != ""
    requires forall i :: !Text.OccursAt(Text.Lower(r.style), Text.Lower(Text.Trim(search)), i)
    requires forall i :: !Text.OccursAt(Text.Lower(r.poNumber), Text.Lower(Text.Trim(search)), i)
    requires r.customerName.Some? ==>
      forall i :: !Text.OccursAt(Text.Lower(r.customerName.value), Text.Lower(Text.Trim(search)), i)
    requires r.creatorName.Some? ==>
      forall i :: !Text.OccursAt(Text.Lower(r.creatorName.value), Text.Lower(Text.Trim(search)), i)
    ensures !SearchKeeps(r, search)
  {
    var text := Text.Trim(search);
    if Text.ContainsIgnoringCase(r.style, text) {
      Text.ContainsImpliesOccurs(Text.Lower(r.style), Text.Lower(text));
    }
    if Text.ContainsIgnoringCase(r.poNumber, text) {
      Text.ContainsImpliesOccurs(Text.Lower(r.poNumber), Text.Lower(text));
    }
    FieldMiss(r.customerName, text);
    FieldMiss(r.creatorName, text);
  }

  /** A search made only of whitespace (or nothing) keeps every record. */
  lemma BlankSearchKeeps(r: Record, search: string)
    requires Text.Blank(search)
    ensures SearchKeeps(r, search)
  {
    Text.TrimEmptyIffBlank(search);
  }

  /** Surrounding whitespace in the search changes nothing: a padded search keeps exactly
      what the bare one keeps. */
  lemma PaddedSearchAlike(r: Record, a: string, t: string, b: string)
    requires Text.Blank(a) && Text.Blank(b) && Text.Stripped(t)
    ensures SearchKeeps(r, a + t + b) <==> SearchKeeps(r, t)
  {
    Text.TrimPadded(a, t, b);
  }

  // ---------------------------------------------------------------- dates

  /** A date bound is compared with a date-time field at that day's midnight. */
  function Midnight(day: int): Instant {
    Instant(day, 0)
  }

  function Seconds(t: Instant): int {
    t.day * 86400 + t.second
  }

  /** The date range as written: created at or after the first midnight, and at or before the last midnight. */
  predicate InRangeAsWritten(t: Instant, after: Option<int>, before: Option<int>) {
    (after.None? || Seconds(t) >= Seconds(Midnight(after.value)))
    && (before.None? || Seconds(t) <= Seconds(Midnight(before.value)))
  }

  /** The date range as its labels mean it: created on any day from the "from" date to the "to" date, both included. */
  predicate InRange(t: Instant, after: Option<int>, before: Option<int>) {
    (after.None? || t.day >= after.value) && (before.None? || t.day <= before.value)
  }

  /** The two readings agree on the lower bound and differ on the upper one only for records created
      after midnight on the "to" day, which the written comparison drops. */
  lemma RangeReadings(t: Instant, after: Option<int>, before: Option<int>)
    requires ValidInstant(t)
    ensures InRangeAsWritten(t, after, before) ==> InRange(t, after, before)
    ensures InRange(t, after, before) && !InRangeAsWritten(t, after, before) <==>
      InRange(t, after, None) && before.Some? && t.day == before.value && t.second > 0
  {
  }

  /** An inspection created at 10:00 on the "to" day is left out of a range ending that day. */
  lemma LastDayDropped(day: int)
    ensures InRange(Instant(day, 36000), None, Some(day))
    ensures !InRangeAsWritten(Instant(day, 36000), None, Some(day))
  {
  }

  // ---------------------------------------------------------------- choices and customer

  /** An empty selection does not filter; otherwise the value must be one of those selected. A missing value never is. */
  predicate ChoiceMatches(value: Option<string>, selected: seq<string>) {
    selected == [] || (value.Some? && value.value in selected)
  }

  predicate CustomerMatches(r: Record, customer: Option<nat>) {
    customer.None? || r.customerId == customer
  }

  /** Every condition of the query, with the date range as `inRange` reads it. */
  predicate MatchesWith(r: Record, q: Query, inRange: (Instant, Option<int>, Option<int>) -> bool) {
    && inRange(r.created, q.after, q.before)
    && ChoiceMatches(r.decision, q.decisions)
    && ChoiceMatches(Some(r.stage), q.stages)
    && CustomerMatches(r, q.customer)
    && SearchKeeps(r, q.search)
  }

  function Keeps(q: Query, inRange: (Instant, Option<int>, Option<int>) -> bool): Record -> bool {
    (r: Record) => MatchesWith(r, q, inRange)
  }

  /** Why a query is refused. */
  datatype QueryError = InvalidChoice(value: string)

  /** The first value of `xs` that is not among `choices`, if any. */
  function FirstInvalid(xs: seq<string>, choices: seq<string>): (r: Option<string>)
    ensures r.None? <==> forall x :: x in xs ==> x in choices
    ensures r.Some? ==> r.value in xs && r.value !in choices
    decreases |xs|
  {
    if |xs| == 0 then None
    else if xs[0] !in choices then Some(xs[0])
    else
      var rest := FirstInvalid(xs[1..], choices);
      assert forall x :: x in xs ==> x == xs[0] || x in xs[1..];
      rest
  }

  /** A selected value outside the field's choices is refused with a validation error. */
  function Validate(q: Query): (r: Result<Query, QueryError>)
    ensures r.Ok? <==>
      (forall d :: d in q.decisions ==> d in DecisionChoices) && (forall s :: s in q.stages ==> s in StageChoices)
    ensures r.Ok? ==> r.value == q
    ensures r.Err? ==>
      (r.error.value in q.decisions && r.error.value !in DecisionChoices)
      || (r.error.value in q.stages && r.error.value !in StageChoices)
  {
    match FirstInvalid(q.decisions, DecisionChoices)
    case Some(d) => Err(InvalidChoice(d))
    case None =>
      match FirstInvalid(q.stages, StageChoices)
      case Some(s) => Err(InvalidChoice(s))
      case None => Ok(q)
  }

  /** The filtered list with the date range as written. */
  function FilterAsWritten(records: seq<Record>, q: Query): (r: Result<seq<Record>, QueryError>)
    ensures r.Ok? <==> Validate(q).Ok?
    ensures r.Ok? ==> forall x :: x in r.value <==>
      x in records
      && InRangeAsWritten(x.created, q.after, q.before)
      && ChoiceMatches(x.decision, q.decisions)
      && ChoiceMatches(Some(x.stage), q.stages)
      && CustomerMatches(x, q.customer)
      && SearchKeeps(x, q.search)
  {
    match Validate(q)
    case Err(e) => Err(e)
    case Ok(_) => Ok(Sequences.Filter(records, Keeps(q, InRangeAsWritten)))
  }

  /** The filtered list with the date range including the whole "to" day. */
  function FilterInspections(records: seq<Record>, q: Query): (r: Result<seq<Record>, QueryError>)
    ensures r.Ok? <==> Validate(q).Ok?
    ensures r.Ok? ==> forall x :: x in r.value <==>
      x in records
      && InRange(x.created, q.after, q.before)
      && ChoiceMatches(x.decision, q.decisions)
      && ChoiceMatches(Some(x.stage), q.stages)
      && CustomerMatches(x, q.customer)
      && SearchKeeps(x, q.search)
  {
    match Validate(q)
    case Err(e) => Err(e)
    case Ok(_) => Ok(Sequences.Filter(records, Keeps(q, InRange)))
  }

  /** The result lists a subset of the inspections, in their original order. */
  lemma FilterIsSubsequence(records: seq<Record>, q: Query)
    requires FilterInspections(records, q).Ok?
    ensures Sequences.Subsequence(FilterInspections(records, q).value, records)
  {
    Sequences.FilterKeepsOrder(records, Keeps(q, InRange));
  }

  /** A query with no parameters returns every inspection, in order. */
  lemma NoQueryKeepsAll(records: seq<Record>)
    ensures FilterInspections(records, NoQuery) == Ok(records)
  {
    assert NoQuery.(search := "") == NoQuery;
    BlankSearchKeepsAll(records, "");
  }

  /** Filtering an already filtered list with the same query changes nothing. */
  lemma FilterIdempotent(records: seq<Record>, q: Query)
    requires FilterInspections(records, q).Ok?
    ensures FilterInspections(FilterInspections(records, q).value, q) == FilterInspections(records, q)
  {
    Sequences.FilterIdempotent(records, Keeps(q, InRange));
  }

  /** Whatever the written filter keeps, the corrected one keeps too. */
  lemma AsWrittenKeepsLess(records: seq<Record>, q: Query, x: Record)
    requires ValidInstant(x.created)
    requires FilterAsWritten(records, q).Ok? && x in FilterAsWritten(records, q).value
    ensures x in FilterInspections(records, q).value
  {
    RangeReadings(x.created, q.after, q.before);
  }

  /** The written filter drops an inspection created late on the last day of the range. */
  lemma LastDayWrittenDrops(x: Record, q: Query)
    requires x.created == Instant(20000, 36000)
    requires q == NoQuery.(before := Some(20000))
    ensures FilterAsWritten([x], q) == Ok([])
  {
    assert Validate(q).Ok?;
    assert !InRangeAsWritten(x.created, q.after, q.before);
    assert !Keeps(q, InRangeAsWritten)(x);
    assert x !in Sequences.Filter([x], Keeps(q, InRangeAsWritten));
  }

  /** The corrected filter keeps an inspection created late on the last day of the range. */
  lemma LastDayCorrectedKeeps(x: Record, q: Query)
    requires x.created == Instant(20000, 36000)
    requires q == NoQuery.(before := Some(20000))
    ensures FilterInspections([x], q) == Ok([x])
  {
    assert Validate(q).Ok?;
    assert Keeps(q, InRange)(x);
    Sequences.FilterAllPass([x], Keeps(q, InRange));
  }

  /** An inspection created late on the last day of the range is listed by the corrected filter only. */
  lemma LastDayRecordListedOnlyWhenCorrected(x: Record)
    requires x.created == Instant(20000, 36000)
    ensures FilterInspections([x], NoQuery.(before := Some(20000))) == Ok([x])
    ensures FilterAsWritten([x], NoQuery.(before := Some(20000))) == Ok([])
  {
    LastDayCorrectedKeeps(x, NoQuery.(before := Some(20000)));
    LastDayWrittenDrops(x, NoQuery.(before := Some(20000)));
  }

  /** A search that is only whitespace lists every inspection, in order, as if it were absent. */
  lemma BlankSearchKeepsAll(records: seq<Record>, search: string)
    requires Text.Blank(search)
    ensures FilterInspections(records, NoQuery.(search := search)) == Ok(records)
  {
    var q := NoQuery.(search := search);
    assert Validate(q).Ok?;
    forall x | x in records ensures Keeps(q, InRange)(x) {
      BlankSearchKeeps(x, search);
    }
    Sequences.FilterAllPass(records, Keeps(q, InRange));
  }

  /** The search "shirt " strips to "shirt". */
  lemma TrailingSpaceStripped()
    ensures Text.Trim("shirt ") == "shirt"
  {
    assert Text.Stripped("shirt") by {
      assert !Text.IsSpace('s') && !Text.IsSpace('t');
    }
    assert Text.Blank(" ");
    assert "shirt " == [] + "shirt" + " ";
    Text.TrimUnique([], "shirt", " ");
  }

  /** A search typed with a trailing space still finds the style it names. */
  lemma TrailingSpaceKeeps(x: Record, q: Query)
    requires x.style == "Shirt"
    requires q == NoQuery.(search := "shirt ")
    ensures FilterInspections([x], q) == Ok([x])
  {
    TrailingSpaceStripped();
    assert SearchKeeps(x, q.search) by {
      assert Text.Lower("Shirt") == Text.Lower("shirt");
      assert Text.Contains(Text.Lower("Shirt"), Text.Lower("shirt"));
    }
    assert Validate(q).Ok?;
    assert Keeps(q, InRange)(x);
    Sequences.FilterAllPass([x], Keeps(q, InRange));
  }

  /** The search box sends "shirt " as typed, and the inspection of style "Shirt" is listed. */
  lemma TrailingSpaceSearchFinds(x: Record)
    requires x.style == "Shirt"
    ensures FilterInspections([x], NoQuery.(search := "shirt ")) == Ok([x])
  {
    TrailingSpaceKeeps(x, NoQuery.(search := "shirt "));
  }
}
