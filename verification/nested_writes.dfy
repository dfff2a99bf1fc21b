/** The backend's nested writes: templates with their points of measure,
    sample-evaluation inspections with their measurement rows, and final
    inspections with their defects, size checks and measurements. A stored
    record is its scalar attributes plus its child lists; validated request
    data is a map of the supplied attributes plus, per child list, either a
    supplied list or nothing. */
module NestedWrites {
  import opened Wrappers

  /** A scalar attribute value as it is stored. */
  datatype Value = Str(s: string) | Num(r: real) | Stamp(t: int) | Null

  type Attrs = map<string, Value>

  /** A child row whose columns are passed through as given. */
  type Row = map<string, Value>

  /** Writes every supplied attribute over the stored ones; the rest stay as they were. */
  function Overwrite(stored: Attrs, supplied: Attrs): (r: Attrs)
    ensures r.Keys == stored.Keys + supplied.Keys
    ensures forall k :: k in supplied ==> r[k] == supplied[k]
    ensures forall k :: k in stored && k !in supplied ==> r[k] == stored[k]
  {
    stored + supplied
  }

  /** A child list is replaced wholesale when a list is supplied and kept otherwise. */
  function Replace<T>(current: seq<T>, supplied: Option<seq<T>>): (r: seq<T>)
    ensures supplied.Some? ==> r == supplied.value
    ensures supplied.None? ==> r == current
  {
    match supplied
    case None => current
    case Some(xs) => xs
  }

  // ---------------------------------------------------------------- templates

  /** One point of measure as validated from a request; every field may be absent. */
  datatype PomInput = PomInput(name: Option<string>, defaultTol: Option<real>, defaultStd: Option<real>, order: Option<nat>)

  datatype Pom = Pom(name: string, defaultTol: real, defaultStd: Option<real>, order: nat)

  datatype Template = Template(attrs: Attrs, poms: seq<Pom>)

  /** The stored point of measure for the `i`-th input: missing name '', tolerance 0.0, standard null. */
  function MakePom(p: PomInput, i: nat): (r: Pom)
    ensures r.order == i
    ensures r.name == (if p.name.Some? then p.name.value else "")
    ensures r.defaultTol == (if p.defaultTol.Some? then p.defaultTol.value else 0.0)
    ensures r.defaultStd == p.defaultStd
  {
    Pom(p.name.GetOr(""), p.defaultTol.GetOr(0.0), p.defaultStd, i)
  }

  /** The inputs stored in order, the `i`-th numbered `i`. */
  function Numbered(poms: seq<PomInput>): (r: seq<Pom>)
    ensures |r| == |poms|
    ensures forall i :: 0 <= i < |r| ==> r[i] == MakePom(poms[i], i)
  {
    seq(|poms|, i requires 0 <= i < |poms| => MakePom(poms[i], i))
  }

  /** Numbering makes the order field list the positions 0, 1, 2, ... */
  lemma NumberedOrders(poms: seq<PomInput>)
    ensures forall i :: 0 <= i < |Numbered(poms)| ==> Numbered(poms)[i].order == i
    ensures forall i, j :: 0 <= i < j < |Numbered(poms)| ==> Numbered(poms)[i].order < Numbered(poms)[j].order
  {
  }

  /** Why a write is refused. */
  datatype WriteError = DuplicateKeyword(field: string)

  /** Template creation as written: the position is passed as `order` next to every
      supplied field, so a point of measure that supplies its own order is refused. */
  function CreateTemplateAsWritten(attrs: Attrs, poms: Option<seq<PomInput>>): (r: Result<Template, WriteError>)
    ensures r.Err? <==> exists i :: 0 <= i < |poms.GetOr([])| && poms.value[i].order.Some?
    ensures r.Ok? ==> r.value == Template(attrs, Numbered(poms.GetOr([])))
  {
    var ps := poms.GetOr([]);
    if exists i :: 0 <= i < |ps| && ps[i].order.Some? then Err(DuplicateKeyword("order"))
    else Ok(Template(attrs, Numbered(ps)))
  }

  /** A client that echoes the order back, as a round trip of a read would, cannot create. */
  lemma EchoedOrderRefused(attrs: Attrs, name: string)
    ensures CreateTemplateAsWritten(attrs, Some([PomInput(Some(name), None, None, Some(0))])).Err?
  {
    var ps := [PomInput(Some(name), None, None, Some(0))];
    assert ps[0].order.Some?;
  }

  /** Template creation with the position taking precedence over any supplied order. */
  function CreateTemplate(attrs: Attrs, poms: Option<seq<PomInput>>): (r: Template)
    ensures r.attrs == attrs
    ensures |r.poms| == |poms.GetOr([])|
    ensures forall i :: 0 <= i < |r.poms| ==> r.poms[i].order == i && r.poms[i].name == poms.value[i].name.GetOr("")
  {
    Template(attrs, Numbered(poms.GetOr([])))
  }

  /** Where the written code succeeds, the corrected creation stores the same template. */
  lemma CreateTemplateAgrees(attrs: Attrs, poms: Option<seq<PomInput>>)
    ensures CreateTemplateAsWritten(attrs, poms).Ok? ==> CreateTemplateAsWritten(attrs, poms).value == CreateTemplate(attrs, poms)
  {
  }

  /** Template update: attributes overwritten; points of measure replaced and renumbered only when supplied. */
  function UpdateTemplate(t: Template, attrs: Attrs, poms: Option<seq<PomInput>>): (r: Template)
    ensures r.attrs == Overwrite(t.attrs, attrs)
    ensures poms.None? ==> r.poms == t.poms
    ensures poms.Some? ==> r.poms == Numbered(poms.value)
  {
    Template(Overwrite(t.attrs, attrs), if poms.Some? then Numbered(poms.value) else t.poms)
  }

  /** Creating and then updating with a list stores what creating with that list stores. */
  lemma UpdateAfterCreate(attrs: Attrs, first: Option<seq<PomInput>>, poms: seq<PomInput>)
    ensures UpdateTemplate(CreateTemplate(attrs, first), attrs, Some(poms)) == CreateTemplate(attrs, Some(poms))
  {
    assert attrs + attrs == attrs;
  }

  /** Repeating an update changes nothing more. */
  lemma UpdateTemplateIdempotent(t: Template, attrs: Attrs, poms: Option<seq<PomInput>>)
    ensures UpdateTemplate(UpdateTemplate(t, attrs, poms), attrs, poms) == UpdateTemplate(t, attrs, poms)
  {
    assert t.attrs + attrs + attrs == t.attrs + attrs;
  }

  // ---------------------------------------------------------------- sample-evaluation inspections

  datatype Inspection = Inspection(attrs: Attrs, measurements: seq<Row>)

  const FeedbackDate := "customer_feedback_date"

  /** Customer feedback is present when either of its two fields is supplied, whatever its value. */
  predicate HasFeedback(attrs: Attrs) {
    "customer_decision" in attrs || "customer_feedback_comments" in attrs
  }

  function CreateInspection(attrs: Attrs, measurements: Option<seq<Row>>): (r: Inspection)
    ensures r.attrs == attrs
    ensures r.measurements == (if measurements.Some? then measurements.value else [])
  {
    Inspection(attrs, measurements.GetOr([]))
  }

  /** Inspection update at time `now`: the feedback date is stamped first, then every supplied attribute is written. */
  function UpdateInspection(i: Inspection, attrs: Attrs, measurements: Option<seq<Row>>, now: int): (r: Inspection)
    ensures forall k :: k in attrs ==> k in r.attrs && r.attrs[k] == attrs[k]
    ensures HasFeedback(attrs) && FeedbackDate !in attrs ==> FeedbackDate in r.attrs && r.attrs[FeedbackDate] == Stamp(now)
    ensures forall k :: k in i.attrs && k !in attrs && (k != FeedbackDate || !HasFeedback(attrs)) ==>
      k in r.attrs && r.attrs[k] == i.attrs[k]
    ensures r.attrs.Keys == i.attrs.Keys + attrs.Keys + (if HasFeedback(attrs) then {FeedbackDate} else {})
    ensures r.measurements == Replace(i.measurements, measurements)
  {
    var stamped := if HasFeedback(attrs) then i.attrs[FeedbackDate := Stamp(now)] else i.attrs;
    Inspection(Overwrite(stamped, attrs), Replace(i.measurements, measurements))
  }

  /** The feedback date moves exactly when feedback is supplied without an explicit date. */
  lemma FeedbackDateChanges(i: Inspection, attrs: Attrs, measurements: Option<seq<Row>>, now: int)
    requires FeedbackDate in i.attrs && i.attrs[FeedbackDate] != Stamp(now)
    requires FeedbackDate !in attrs
    ensures UpdateInspection(i, attrs, measurements, now).attrs[FeedbackDate] == Stamp(now) <==> HasFeedback(attrs)
  {
  }

  /** An update that supplies nothing leaves the inspection as it was. */
  lemma EmptyInspectionUpdate(i: Inspection, now: int)
    ensures UpdateInspection(i, map[], None, now) == i
  {
    assert i.attrs + map[] == i.attrs;
  }

  /** Repeating an update at the same time changes nothing more. */
  lemma UpdateInspectionIdempotent(i: Inspection, attrs: Attrs, measurements: Option<seq<Row>>, now: int)
    ensures var once := UpdateInspection(i, attrs, measurements, now);
      UpdateInspection(once, attrs, measurements, now) == once
  {
    var once := UpdateInspection(i, attrs, measurements, now);
    var twice := UpdateInspection(once, attrs, measurements, now);
    assert twice.attrs == once.attrs;
  }

  // ---------------------------------------------------------------- final inspections

  datatype FinalInspection = FinalInspection(attrs: Attrs, defects: seq<Row>, sizeChecks: seq<Row>, measurements: seq<Row>)

  /** Final-inspection creation: each missing child list counts as empty. */
  function CreateFinalInspection(attrs: Attrs, defects: Option<seq<Row>>, sizeChecks: Option<seq<Row>>,
                                 measurements: Option<seq<Row>>): (r: FinalInspection)
    ensures r.attrs == attrs
    ensures r.defects == (if defects.Some? then defects.value else [])
    ensures r.sizeChecks == (if sizeChecks.Some? then sizeChecks.value else [])
    ensures r.measurements == (if measurements.Some? then measurements.value else [])
  {
    FinalInspection(attrs, defects.GetOr([]), sizeChecks.GetOr([]), measurements.GetOr([]))
  }

  /** Final-inspection update: attributes overwritten, each child list replaced on its own and only when supplied. */
  function UpdateFinalInspection(f: FinalInspection, attrs: Attrs, defects: Option<seq<Row>>, sizeChecks: Option<seq<Row>>,
                                 measurements: Option<seq<Row>>): (r: FinalInspection)
    ensures r.attrs == Overwrite(f.attrs, attrs)
    ensures defects.None? ==> r.defects == f.defects
    ensures defects.Some? ==> r.defects == defects.value
    ensures sizeChecks.None? ==> r.sizeChecks == f.sizeChecks
    ensures sizeChecks.Some? ==> r.sizeChecks == sizeChecks.value
    ensures measurements.None? ==> r.measurements == f.measurements
    ensures measurements.Some? ==> r.measurements == measurements.value
  {
    FinalInspection(Overwrite(f.attrs, attrs), Replace(f.defects, defects), Replace(f.sizeChecks, sizeChecks),
                    Replace(f.measurements, measurements))
  }

  /** Updating a created final inspection with every list supplied is the same as creating it with those lists. */
  lemma UpdateAfterCreateFinal(attrs: Attrs, d0: Option<seq<Row>>, s0: Option<seq<Row>>, m0: Option<seq<Row>>,
                               d: seq<Row>, s: seq<Row>, m: seq<Row>)
    ensures UpdateFinalInspection(CreateFinalInspection(attrs, d0, s0, m0), attrs, Some(d), Some(s), Some(m))
         == CreateFinalInspection(attrs, Some(d), Some(s), Some(m))
  {
    assert attrs + attrs == attrs;
  }

  /** An update that supplies nothing leaves the final inspection as it was. */
  lemma EmptyFinalUpdate(f: FinalInspection)
    ensures UpdateFinalInspection(f, map[], None, None, None) == f
  {
    assert f.attrs + map[] == f.attrs;
  }
}
