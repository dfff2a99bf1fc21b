/** Measurement rows of the two inspection forms: rows built from a selected
    template, the red highlight of an out-of-tolerance sample, and the
    empty-sample normalisation of the sample-evaluation payload. The browser's
    `parseFloat` is a parameter `parse`, `None` standing for NaN. */
module MeasurementRows {
  import opened Wrappers

  /** A point of measure as the templates endpoint returns it; `defaultStd` may be null. */
  datatype TemplatePom = TemplatePom(name: string, defaultTol: real, defaultStd: Option<real>)

  datatype Template = Template(id: string, poms: seq<TemplatePom>)

  /** A final-inspection chart row: spec, tolerance and five sample texts. */
  datatype ChartRow = ChartRow(pomName: string, spec: Option<real>, tol: real, samples: seq<string>)

  /** A sample-evaluation row: tolerance, standard, three sample texts and a status. */
  datatype EvalRow = EvalRow(pomName: string, tol: real, std: Option<real>, samples: seq<string>, status: string)

  /** The same row as submitted: an empty sample becomes null. */
  datatype PayloadRow = PayloadRow(pomName: string, tol: real, std: Option<real>, samples: seq<Option<string>>, status: string)

  function Abs(x: real): real {
    if x < 0.0 then -x else x
  }

  /** Index of the first template with the given id (`Array.prototype.find`). */
  function FindTemplate(templates: seq<Template>, id: string): (r: Option<nat>)
    ensures r.Some? ==> r.value < |templates| && templates[r.value].id == id
    ensures r.Some? ==> forall j :: 0 <= j < r.value ==> templates[j].id != id
    ensures r.None? ==> forall j :: 0 <= j < |templates| ==> templates[j].id != id
    decreases |templates|
  {
    if |templates| == 0 then None
    else if templates[0].id == id then Some(0)
    else match FindTemplate(templates[1..], id)
      case None => None
      case Some(k) => Some(k + 1)
  }

  /** The chart rows of a template: one per point of measure, in order, with five empty samples. */
  function ChartRowsOf(t: Template): (rows: seq<ChartRow>)
    ensures |rows| == |t.poms|
    ensures forall i :: 0 <= i < |rows| ==>
      rows[i].pomName == t.poms[i].name && rows[i].spec == t.poms[i].defaultStd
      && rows[i].tol == t.poms[i].defaultTol && rows[i].samples == ["", "", "", "", ""]
  {
    seq(|t.poms|, i requires 0 <= i < |t.poms| =>
      ChartRow(t.poms[i].name, t.poms[i].defaultStd, t.poms[i].defaultTol, ["", "", "", "", ""]))
  }

  /** Final-inspection chart after the template selection changes: replaced when a known template is selected. */
  function SelectChartTemplate(current: seq<ChartRow>, selected: string, templates: Option<seq<Template>>): (rows: seq<ChartRow>)
    ensures selected == "" || templates.None? ==> rows == current
    ensures templates.Some? && selected != "" ==>
      match FindTemplate(templates.value, selected)
      case None => rows == current
      case Some(k) => rows == ChartRowsOf(templates.value[k])
  {
    if selected != "" && templates.Some? then
      match FindTemplate(templates.value, selected)
      case None => current
      case Some(k) => ChartRowsOf(templates.value[k])
    else current
  }

  /** The final-inspection highlight, as written: a null spec is taken as 0, as JavaScript subtraction does. */
  function IsOutOfTolerance(value: string, spec: Option<real>, tol: real, parse: string -> Option<real>): (bad: bool)
    ensures value == "" ==> !bad
    ensures parse(value).None? ==> !bad
    ensures value != "" && parse(value).Some? ==> (bad <==> Abs(parse(value).value - spec.GetOr(0.0)) > tol)
  {
    if value == "" then false
    else match parse(value)
      case None => false
      case Some(v) => Abs(v - spec.GetOr(0.0)) > tol
  }

  /** A sample whose spec is missing is flagged as soon as it lies more than `tol` from zero. */
  lemma NullSpecFlagged(parse: string -> Option<real>)
    requires parse("30") == Some(30.0)
    ensures IsOutOfTolerance("30", None, 0.5, parse)
  {
  }

  /** The highlight with a missing spec treated as unknown, which never shows as a failure. */
  function IsOutOfToleranceGuarded(value: string, spec: Option<real>, tol: real, parse: string -> Option<real>): (bad: bool)
    ensures spec.None? ==> !bad
    ensures bad <==> spec.Some? && IsOutOfTolerance(value, spec, tol, parse)
  {
    spec.Some? && IsOutOfTolerance(value, spec, tol, parse)
  }

  /** A deviation exactly equal to the tolerance is not flagged. */
  lemma BoundaryNotFlagged(value: string, spec: real, tol: real, parse: string -> Option<real>)
    requires parse(value).Some? && Abs(parse(value).value - spec) == tol
    ensures !IsOutOfToleranceGuarded(value, Some(spec), tol, parse)
  {
  }

  /** A freshly loaded chart shows no highlighted cell. */
  lemma FreshChartUnflagged(current: seq<ChartRow>, selected: string, templates: seq<Template>, parse: string -> Option<real>)
    requires selected != "" && FindTemplate(templates, selected).Some?
    ensures var rows := SelectChartTemplate(current, selected, Some(templates));
      forall i, j :: 0 <= i < |rows| && 0 <= j < |rows[i].samples| ==>
        !IsOutOfToleranceGuarded(rows[i].samples[j], rows[i].spec, rows[i].tol, parse)
  {
  }

  /** The sample-evaluation rows of a template: three empty samples and status OK. */
  function EvalRowsOf(t: Template): (rows: seq<EvalRow>)
    ensures |rows| == |t.poms|
    ensures forall i :: 0 <= i < |rows| ==>
      rows[i].pomName == t.poms[i].name && rows[i].tol == t.poms[i].defaultTol
      && rows[i].std == t.poms[i].defaultStd && rows[i].samples == ["", "", ""] && rows[i].status == "OK"
  {
    seq(|t.poms|, i requires 0 <= i < |t.poms| =>
      EvalRow(t.poms[i].name, t.poms[i].defaultTol, t.poms[i].defaultStd, ["", "", ""], "OK"))
  }

  /** Both forms read a template alike: the same points of measure in the same order, with the
      same tolerance and the same standard (the chart's spec). */
  lemma FormsReadTemplateAlike(t: Template)
    ensures |EvalRowsOf(t)| == |ChartRowsOf(t)|
    ensures forall i :: 0 <= i < |EvalRowsOf(t)| ==>
      EvalRowsOf(t)[i].pomName == ChartRowsOf(t)[i].pomName
      && EvalRowsOf(t)[i].tol == ChartRowsOf(t)[i].tol
      && EvalRowsOf(t)[i].std == ChartRowsOf(t)[i].spec
  {
  }

  /** Sample-evaluation rows after the template selection changes. */
  function SelectEvalTemplate(current: seq<EvalRow>, selected: Option<string>, templates: Option<seq<Template>>): (rows: seq<EvalRow>)
    ensures selected.None? || selected == Some("") || templates.None? ==> rows == current
    ensures selected.Some? && selected.value != "" && templates.Some? ==>
      match FindTemplate(templates.value, selected.value)
      case None => rows == current
      case Some(k) => rows == EvalRowsOf(templates.value[k])
  {
    if selected.Some? && selected.value != "" && templates.Some? then
      match FindTemplate(templates.value, selected.value)
      case None => current
      case Some(k) => EvalRowsOf(templates.value[k])
    else current
  }

  /** Selecting a known template on the evaluation form leaves no cell highlighted and every status OK. */
  lemma FreshEvalUnflagged(current: seq<EvalRow>, selected: string, templates: seq<Template>, parse: string -> Option<real>)
    requires selected != "" && FindTemplate(templates, selected).Some?
    ensures var rows := SelectEvalTemplate(current, Some(selected), Some(templates));
      forall i :: 0 <= i < |rows| ==> (
        && rows[i].status == "OK"
        && forall j :: 0 <= j < |rows[i].samples| ==> !CheckTol(rows[i].samples[j], rows[i].std, rows[i].tol, parse))
  {
  }

  /** The sample-evaluation highlight: never for an empty sample, nor in a row whose standard is null or zero. */
  function CheckTol(value: string, std: Option<real>, tol: real, parse: string -> Option<real>): (bad: bool)
    ensures value == "" || std.None? || std == Some(0.0) ==> !bad
    ensures parse(value).None? ==> !bad
    ensures bad <==> value != "" && std.Some? && std.value != 0.0 && parse(value).Some?
                     && Abs(parse(value).value - std.value) > tol
  {
    if value == "" || std.None? || std.value == 0.0 then false
    else match parse(value)
      case None => false
      case Some(v) => Abs(v - std.value) > tol
  }

  /** The two highlights agree wherever the evaluation form's standard is a non-zero number. */
  lemma HighlightsAgree(value: string, std: real, tol: real, parse: string -> Option<real>)
    requires std != 0.0
    ensures CheckTol(value, Some(std), tol, parse) == IsOutOfToleranceGuarded(value, Some(std), tol, parse)
  {
  }

  function NullIfEmpty(s: string): Option<string> {
    if s == "" then None else Some(s)
  }

  /** The measurement list of the create payload: empty samples become null, nothing else changes. */
  function Normalize(rows: seq<EvalRow>): (out: seq<PayloadRow>)
    ensures |out| == |rows|
    ensures forall i :: 0 <= i < |rows| ==>
      && out[i].pomName == rows[i].pomName && out[i].tol == rows[i].tol
      && out[i].std == rows[i].std && out[i].status == rows[i].status
      && |out[i].samples| == |rows[i].samples|
      && forall j :: 0 <= j < |rows[i].samples| ==>
           (out[i].samples[j].None? <==> rows[i].samples[j] == "")
           && (rows[i].samples[j] != "" ==> out[i].samples[j] == Some(rows[i].samples[j]))
  {
    seq(|rows|, i requires 0 <= i < |rows| =>
      var r := rows[i];
      PayloadRow(r.pomName, r.tol, r.std,
        seq(|r.samples|, j requires 0 <= j < |r.samples| => NullIfEmpty(r.samples[j])), r.status))
  }

  /** Reads a submitted row back into form text: null becomes the empty string. */
  function Restore(rows: seq<PayloadRow>): (out: seq<EvalRow>)
    ensures |out| == |rows|
  {
    seq(|rows|, i requires 0 <= i < |rows| =>
      var r := rows[i];
      EvalRow(r.pomName, r.tol, r.std,
        seq(|r.samples|, j requires 0 <= j < |r.samples| => r.samples[j].GetOr("")), r.status))
  }

  /** Normalisation loses nothing: restoring the payload gives back the form rows. */
  lemma NormalizeRoundTrip(rows: seq<EvalRow>)
    ensures Restore(Normalize(rows)) == rows
  {
    var back := Restore(Normalize(rows));
    forall i | 0 <= i < |rows| ensures back[i] == rows[i] {
      assert back[i].samples == rows[i].samples;
    }
  }
}
