/** The final-inspection defect tally: a table from defect name to three
    per-severity counters, kept in the order a browser object enumerates its
    keys (array-index names first, in ascending numeric order, then every other
    name in insertion order), with the live Pass/Fail verdict and the defect
    list submitted with the report. The defect names of the common list and the
    AQL limits come from a library that is not part of this model and are
    parameters here. */
module DefectTally {

  datatype Severity = Critical | Major | Minor {
    /** The severity name the server receives. */
    function Label(): string {
      match this
      case Critical => "Critical"
      case Major => "Major"
      case Minor => "Minor"
    }

    /** Position of the severity in a defect's emitted lines. */
    function Rank(): nat {
      match this
      case Critical => 0
      case Major => 1
      case Minor => 2
    }
  }

  datatype Counts = Counts(critical: nat, major: nat, minor: nat) {
    function Get(sev: Severity): nat {
      match sev
      case Critical => critical
      case Major => major
      case Minor => minor
    }

    function Set(sev: Severity, v: nat): (c: Counts)
      ensures c.Get(sev) == v
      ensures forall other :: other != sev ==> c.Get(other) == Get(other)
    {
      match sev
      case Critical => this.(critical := v)
      case Major => this.(major := v)
      case Minor => this.(minor := v)
    }
  }

  const Zero := Counts(0, 0, 0)

  datatype Entry = Entry(name: string, counts: Counts)

  /** The tally in the order its keys are enumerated. */
  type Tally = seq<Entry>

  function Names(t: Tally): (ns: seq<string>)
    ensures |ns| == |t|
    ensures forall i :: 0 <= i < |t| ==> ns[i] == t[i].name
  {
    seq(|t|, i requires 0 <= i < |t| => t[i].name)
  }

  /** Every defect name occurs once, as the keys of an object do. */
  ghost predicate Keyed(t: Tally) {
    forall i, j :: 0 <= i < j < |t| ==> t[i].name != t[j].name
  }

  /** The position of defect `d` in the tally. */
  function Pos(t: Tally, d: string): (k: nat)
    requires d in Names(t)
    ensures k < |t| && t[k].name == d
    ensures forall i :: 0 <= i < k ==> t[i].name != d
  {
    if t[0].name == d then 0
    else
      assert d in Names(t[1..]) by {
        var i :| 0 <= i < |Names(t)| && Names(t)[i] == d;
        assert Names(t[1..])[i - 1] == d;
      }
      1 + Pos(t[1..], d)
  }

  // ---------------------------------------------------------------- key order

  predicate IsDigit(c: char) {
    '0' <= c <= '9'
  }

  predicate AllDigits(s: string) {
    forall i :: 0 <= i < |s| ==> IsDigit(s[i])
  }

  /** The number a string of decimal digits denotes. */
  function DigitsValue(s: string): nat
    requires AllDigits(s)
    decreases |s|
  {
    if |s| == 0 then 0 else 10 * DigitsValue(s[..|s| - 1]) + (s[|s| - 1] as int - '0' as int)
  }

  /** An array index in the sense of ECMA-262 (section 6.1.7): the canonical decimal numeral,
      without leading zeros, of an integer below 2^32 - 1. */
  predicate IsArrayIndex(s: string) {
    |s| > 0 && AllDigits(s) && (|s| == 1 || s[0] != '0') && DigitsValue(s) < 0xFFFF_FFFF
  }

  function IndexValue(s: string): nat
    requires IsArrayIndex(s)
  {
    DigitsValue(s)
  }

  function Pow10(n: nat): (p: nat)
    ensures p >= 1
  {
    if n == 0 then 1 else 10 * Pow10(n - 1)
  }

  lemma {:induction false} Pow10Grows(m: nat, n: nat)
    requires m <= n
    ensures Pow10(m) <= Pow10(n)
    decreases n
  {
    if m < n {
      Pow10Grows(m, n - 1);
    }
  }

  /** A numeral of `n` digits stays below 10^n, and reaches 10^(n-1) when it does not start with 0. */
  lemma {:induction false} DigitsBounds(s: string)
    requires AllDigits(s)
    ensures DigitsValue(s) < Pow10(|s|)
    ensures |s| > 0 && s[0] != '0' ==> Pow10(|s| - 1) <= DigitsValue(s)
    decreases |s|
  {
    if |s| > 0 {
      var p := s[..|s| - 1];
      assert AllDigits(p);
      DigitsBounds(p);
      if |p| > 0 {
        assert p[0] == s[0];
      }
    }
  }

  /** Two numerals of the same length with the same value are the same string. */
  lemma {:induction false} SameLengthSameValue(a: string, b: string)
    requires AllDigits(a) && AllDigits(b) && |a| == |b|
    requires DigitsValue(a) == DigitsValue(b)
    ensures a == b
    decreases |a|
  {
    if |a| > 0 {
      var pa, pb := a[..|a| - 1], b[..|b| - 1];
      assert AllDigits(pa) && AllDigits(pb);
      assert IsDigit(a[|a| - 1]) && IsDigit(b[|b| - 1]);
      assert DigitsValue(pa) == DigitsValue(pb);
      SameLengthSameValue(pa, pb);
      assert a == pa + [a[|a| - 1]] && b == pb + [b[|b| - 1]];
    }
  }

  /** Distinct array-index names denote distinct numbers. */
  lemma IndexValueInjective(a: string, b: string)
    requires IsArrayIndex(a) && IsArrayIndex(b) && a != b
    ensures IndexValue(a) != IndexValue(b)
  {
    if |a| == |b| {
      if DigitsValue(a) == DigitsValue(b) {
        SameLengthSameValue(a, b);
      }
    } else if |a| < |b| {
      DigitsBounds(a);
      DigitsBounds(b);
      Pow10Grows(|a|, |b| - 1);
    } else {
      DigitsBounds(a);
      DigitsBounds(b);
      Pow10Grows(|b|, |a| - 1);
    }
  }

  /** Key enumeration order (section 10.1.11.1 of ECMA-262, OrdinaryOwnPropertyKeys): an array-index
      key is preceded only by array-index keys of smaller value; other keys follow in insertion order. */
  ghost predicate KeyOrder(t: Tally) {
    forall i, j :: 0 <= i < j < |t| && IsArrayIndex(t[j].name) ==>
      IsArrayIndex(t[i].name) && IndexValue(t[i].name) < IndexValue(t[j].name)
  }

  /** Where a new key `d` is enumerated: an array index after the smaller array indices, any other name last. */
  function Slot(t: Tally, d: string): (k: nat)
    ensures k <= |t|
    ensures !IsArrayIndex(d) ==> k == |t|
    ensures IsArrayIndex(d) ==> forall i :: 0 <= i < k ==> IsArrayIndex(t[i].name) && IndexValue(t[i].name) < IndexValue(d)
    ensures IsArrayIndex(d) && k < |t| ==> !IsArrayIndex(t[k].name) || IndexValue(d) <= IndexValue(t[k].name)
    decreases |t|
  {
    if !IsArrayIndex(d) then |t|
    else if |t| == 0 || !IsArrayIndex(t[0].name) || IndexValue(d) <= IndexValue(t[0].name) then 0
    else
      var k := Slot(t[1..], d);
      assert forall i :: 1 <= i < k + 1 ==> t[i] == t[1..][i - 1];
      1 + k
  }

  /** The tally after assigning entry `e` to a key it does not have yet. */
  function Place(t: Tally, e: Entry): (r: Tally)
    ensures |r| == |t| + 1
  {
    var k := Slot(t, e.name);
    t[..k] + [e] + t[k..]
  }

  lemma PlaceIndexing(t: Tally, e: Entry, i: nat)
    requires i < |t| + 1
    ensures var k := Slot(t, e.name);
      Place(t, e)[i] == if i < k then t[i] else if i == k then e else t[i - 1]
  {
    var k := Slot(t, e.name);
    var a, b := t[..k], t[k..];
    assert Place(t, e) == a + [e] + b;
    if i < k {
      assert (a + [e] + b)[i] == a[i];
    } else if i > k {
      assert (a + [e] + b)[i] == b[i - k - 1];
    }
  }

  /** A new key keeps the keys distinct. */
  lemma PlaceKeepsKeyed(t: Tally, e: Entry)
    requires Keyed(t) && e.name !in Names(t)
    ensures Keyed(Place(t, e))
  {
    var k, r := Slot(t, e.name), Place(t, e);
    forall i, j | 0 <= i < j < |r| ensures r[i].name != r[j].name {
      PlaceIndexing(t, e, i);
      PlaceIndexing(t, e, j);
      assert i != k ==> Names(t)[if i < k then i else i - 1] == r[i].name;
      assert j != k ==> Names(t)[if j < k then j else j - 1] == r[j].name;
    }
  }

  /** A new key keeps the keys in enumeration order. */
  lemma PlaceKeepsOrder(t: Tally, e: Entry)
    requires Keyed(t) && e.name !in Names(t)
    ensures KeyOrder(t) ==> KeyOrder(Place(t, e))
  {
    var k, r := Slot(t, e.name), Place(t, e);
    forall i, j | KeyOrder(t) && 0 <= i < j < |r| && IsArrayIndex(r[j].name)
      ensures IsArrayIndex(r[i].name) && IndexValue(r[i].name) < IndexValue(r[j].name)
    {
      PlaceIndexing(t, e, i);
      PlaceIndexing(t, e, j);
      if i == k {
        assert r[j] == t[j - 1];
        if j - 1 > k {
          assert IsArrayIndex(t[k].name) && IndexValue(t[k].name) < IndexValue(t[j - 1].name);
        }
        assert Names(t)[k] == t[k].name;
        IndexValueInjective(e.name, t[k].name);
      }
    }
  }

  /** Assigning zero counters to `d`: an existing key keeps its place, a new key is placed in enumeration order. */
  function Put(t: Tally, d: string): (r: Tally)
    requires Keyed(t) && KeyOrder(t)
    ensures Keyed(r) && KeyOrder(r)
    ensures d in Names(t) ==> r == t
    ensures d !in Names(t) ==> r == Place(t, Entry(d, Zero))
  {
    if d in Names(t) then t
    else
      PlaceKeepsKeyed(t, Entry(d, Zero));
      PlaceKeepsOrder(t, Entry(d, Zero));
      Place(t, Entry(d, Zero))
  }

  lemma PlaceNames(t: Tally, e: Entry)
    ensures forall x :: x in Names(Place(t, e)) <==> x == e.name || x in Names(t)
  {
    var k, r, ns := Slot(t, e.name), Place(t, e), Names(t);
    forall i | 0 <= i < |r| ensures Names(r)[i] == (ns[..k] + [e.name] + ns[k..])[i] {
      PlaceIndexing(t, e, i);
    }
    assert Names(r) == ns[..k] + [e.name] + ns[k..];
    assert ns == ns[..k] + ns[k..];
  }

  /** Putting a key adds exactly that name, and all-zero counters stay all zero. */
  lemma PutKeepsZero(t: Tally, d: string)
    requires Keyed(t) && KeyOrder(t)
    ensures forall x :: x in Names(Put(t, d)) <==> x == d || x in Names(t)
    ensures (forall i :: 0 <= i < |t| ==> t[i].counts == Zero) ==>
      forall i :: 0 <= i < |Put(t, d)| ==> Put(t, d)[i].counts == Zero
  {
    if d !in Names(t) {
      PlaceNames(t, Entry(d, Zero));
      forall i | 0 <= i < |Put(t, d)| && (forall i :: 0 <= i < |t| ==> t[i].counts == Zero)
        ensures Put(t, d)[i].counts == Zero
      {
        PlaceIndexing(t, Entry(d, Zero), i);
      }
    }
  }

  /** The tally the form starts with: every common defect with all counters at zero. */
  function Initial(common: seq<string>): (r: Tally)
    ensures Keyed(r) && KeyOrder(r)
    ensures forall d :: d in Names(r) <==> d in common
    ensures forall i :: 0 <= i < |r| ==> r[i].counts == Zero
    decreases |common|
  {
    if |common| == 0 then []
    else
      var prev := Initial(common[..|common| - 1]);
      var d := common[|common| - 1];
      assert common == common[..|common| - 1] + [d];
      PutKeepsZero(prev, d);
      Put(prev, d)
  }

  /** Moves one counter by `delta`, never below zero (the +/- buttons). */
  function UpdateCount(t: Tally, d: string, sev: Severity, delta: int): (r: Tally)
    requires Keyed(t) && d in Names(t)
    ensures |r| == |t| && Names(r) == Names(t) && Keyed(r)
    ensures r[Pos(t, d)].counts.Get(sev) == Clamp(t[Pos(t, d)].counts.Get(sev) + delta)
    ensures forall other :: other != sev ==> r[Pos(t, d)].counts.Get(other) == t[Pos(t, d)].counts.Get(other)
    ensures forall i :: 0 <= i < |t| && i != Pos(t, d) ==> r[i] == t[i]
  {
    var k := Pos(t, d);
    var e := t[k];
    t[k := Entry(d, e.counts.Set(sev, Clamp(e.counts.Get(sev) + delta)))]
  }

  function Clamp(x: int): (r: nat)
    ensures r >= x && (x >= 0 ==> r == x) && (x < 0 ==> r == 0)
  {
    if x < 0 then 0 else x
  }

  /** The names every object inherits from `Object.prototype` (sections 20.1.3 and B.2.2 of ECMA-262):
      looking one up on the tally finds a function or an object, never `undefined`. */
  const InheritedNames: set<string> := {
    "constructor", "hasOwnProperty", "isPrototypeOf", "propertyIsEnumerable", "toLocaleString",
    "toString", "valueOf", "__proto__", "__defineGetter__", "__defineSetter__",
    "__lookupGetter__", "__lookupSetter__"
  }

  /** The tally and the custom-defect input box after pressing Add. */
  datatype AddOutcome = AddOutcome(tally: Tally, input: string)

  /** Adds the typed name with zero counters when it is non-empty and looking it up on the tally finds
      nothing (neither a key nor an inherited name); the box is then cleared. */
  function AddCustomDefect(t: Tally, input: string): (r: AddOutcome)
    requires Keyed(t)
    ensures Keyed(r.tally)
    ensures KeyOrder(t) ==> KeyOrder(r.tally)
    ensures r.tally != t <==> input != "" && input !in Names(t) && input !in InheritedNames
    ensures r.tally != t ==> r.tally == Place(t, Entry(input, Zero)) && r.input == ""
    ensures r.tally == t ==> r.input == input
    ensures forall x :: x in Names(r.tally) <==> x in Names(t) || (r.tally != t && x == input)
  {
    if input != "" && input !in Names(t) && input !in InheritedNames then
      PlaceNames(t, Entry(input, Zero));
      PlaceKeepsKeyed(t, Entry(input, Zero));
      PlaceKeepsOrder(t, Entry(input, Zero));
      AddOutcome(Place(t, Entry(input, Zero)), "")
    else AddOutcome(t, input)
  }

  /** An added name that is not an array index goes last; an array index goes after exactly the
      array-index keys of smaller value, ahead of every other key. */
  lemma AddPlacesKey(t: Tally, input: string)
    requires Keyed(t) && KeyOrder(t)
    requires AddCustomDefect(t, input).tally != t
    ensures !IsArrayIndex(input) ==> AddCustomDefect(t, input).tally == t + [Entry(input, Zero)]
    ensures IsArrayIndex(input) ==> exists k :: (
      && 0 <= k <= |t|
      && AddCustomDefect(t, input).tally == t[..k] + [Entry(input, Zero)] + t[k..]
      && (forall i :: 0 <= i < k ==> IsArrayIndex(t[i].name) && IndexValue(t[i].name) < IndexValue(input))
      && (forall i :: k <= i < |t| ==> !IsArrayIndex(t[i].name) || IndexValue(input) < IndexValue(t[i].name)))
  {
    var k := Slot(t, input);
    if !IsArrayIndex(input) {
      assert t[..|t|] == t && t[|t|..] == [];
    } else {
      forall i | k <= i < |t| ensures !IsArrayIndex(t[i].name) || IndexValue(input) < IndexValue(t[i].name) {
        if IsArrayIndex(t[i].name) {
          if i > k {
            assert IsArrayIndex(t[k].name) && IndexValue(t[k].name) < IndexValue(t[i].name);
          }
          assert Names(t)[i] == t[i].name && Names(t)[k] == t[k].name;
          IndexValueInjective(input, t[k].name);
        }
      }
    }
  }

  /** A name the object inherits, such as "constructor", is never added. */
  lemma InheritedNameRefused(t: Tally)
    requires Keyed(t)
    ensures AddCustomDefect(t, "constructor") == AddOutcome(t, "constructor")
    ensures AddCustomDefect(t, "__proto__") == AddOutcome(t, "__proto__")
  {
  }

  /** A custom defect named "5" is listed, and so submitted, before a defect added earlier. */
  lemma NumericNameListedFirst()
    ensures AddCustomDefect([Entry("Stain", Zero)], "5").tally == [Entry("5", Zero), Entry("Stain", Zero)]
  {
    var t := [Entry("Stain", Zero)];
    assert IsArrayIndex("5") && IndexValue("5") == 5;
    assert !IsArrayIndex("Stain") by { assert !IsDigit("Stain"[0]); }
    assert Slot(t, "5") == 0;
  }

  /** The sum of one severity over all defects. */
  function Sum(t: Tally, sev: Severity): nat
    decreases |t|
  {
    if |t| == 0 then 0 else t[0].counts.Get(sev) + Sum(t[1..], sev)
  }

  /** Running totals of the three severities (the form's totals card). */
  method TotalDefects(t: Tally) returns (totals: Counts)
    ensures forall sev :: totals.Get(sev) == Sum(t, sev)
  {
    var critical, major, minor := 0, 0, 0;
    var i := |t|;
    while i > 0
      invariant 0 <= i <= |t|
      invariant critical == Sum(t[i..], Critical)
      invariant major == Sum(t[i..], Major)
      invariant minor == Sum(t[i..], Minor)
    {
      i := i - 1;
      assert t[i..][1..] == t[i + 1..];
      critical := critical + t[i].counts.critical;
      major := major + t[i].counts.major;
      minor := minor + t[i].counts.minor;
    }
    assert t[0..] == t;
    totals := Counts(critical, major, minor);
  }

  /** The allowed count per severity for the current sample size. */
  datatype Limits = Limits(critical: int, major: int, minor: int) {
    function Get(sev: Severity): int {
      match sev
      case Critical => critical
      case Major => major
      case Minor => minor
    }
  }

  datatype Status = Pass | Fail

  /** Fail exactly when some severity total is above its limit; a total equal to its limit passes. */
  function ResultStatus(totals: Counts, limits: Limits): (r: Status)
    ensures r == Fail <==> exists sev: Severity :: totals.Get(sev) > limits.Get(sev)
    ensures r == Pass <==> forall sev: Severity :: totals.Get(sev) <= limits.Get(sev)
  {
    if totals.critical > limits.critical || totals.major > limits.major || totals.minor > limits.minor
    then (assert totals.Get(if totals.critical > limits.critical then Critical
                            else if totals.major > limits.major then Major else Minor)
                 > limits.Get(if totals.critical > limits.critical then Critical
                              else if totals.major > limits.major then Major else Minor); Fail)
    else (assert forall sev: Severity :: totals.Get(sev) <= limits.Get(sev); Pass)
  }

  function Totals(t: Tally): Counts {
    Counts(Sum(t, Critical), Sum(t, Major), Sum(t, Minor))
  }

  /** Replacing the entry at index `k` moves the sum by the difference of the two entries. */
  lemma {:induction false} SumPointUpdate(t: Tally, k: nat, e: Entry, sev: Severity)
    requires k < |t|
    ensures Sum(t[k := e], sev) + t[k].counts.Get(sev) == Sum(t, sev) + e.counts.Get(sev)
    decreases |t|
  {
    if k > 0 {
      assert t[k := e][1..] == t[1..][k - 1 := e];
      SumPointUpdate(t[1..], k - 1, e, sev);
    } else {
      assert t[k := e][1..] == t[1..];
    }
  }

  lemma {:induction false} SumConcat(a: Tally, b: Tally, sev: Severity)
    ensures Sum(a + b, sev) == Sum(a, sev) + Sum(b, sev)
    decreases |a|
  {
    if |a| == 0 {
      assert a + b == b;
    } else {
      assert (a + b)[1..] == a[1..] + b;
      SumConcat(a[1..], b, sev);
    }
  }

  /** Placing an entry anywhere adds its counters to the sums. */
  lemma SumPlace(t: Tally, e: Entry, sev: Severity)
    ensures Sum(Place(t, e), sev) == Sum(t, sev) + e.counts.Get(sev)
  {
    var k := Slot(t, e.name);
    var a, b := t[..k], t[k..];
    SumConcat(a + [e], b, sev);
    SumConcat(a, [e], sev);
    SumConcat(a, b, sev);
    assert a + b == t;
    assert [e][1..] == [];
  }

  /** A counter update moves exactly its own severity total, by the clamped change of that counter. */
  lemma UpdateMovesOneTotal(t: Tally, d: string, sev: Severity, delta: int, other: Severity)
    requires Keyed(t) && d in Names(t)
    ensures other != sev ==> Sum(UpdateCount(t, d, sev, delta), other) == Sum(t, other)
    ensures other == sev ==>
      Sum(UpdateCount(t, d, sev, delta), sev) + t[Pos(t, d)].counts.Get(sev)
        == Sum(t, sev) + Clamp(t[Pos(t, d)].counts.Get(sev) + delta)
  {
    var k := Pos(t, d);
    var r := UpdateCount(t, d, sev, delta);
    assert r == t[k := r[k]];
    SumPointUpdate(t, k, r[k], other);
  }

  /** Adding a custom defect changes no total. */
  lemma AddKeepsTotals(t: Tally, input: string)
    requires Keyed(t)
    ensures Totals(AddCustomDefect(t, input).tally) == Totals(t)
  {
    SumPlace(t, Entry(input, Zero), Critical);
    SumPlace(t, Entry(input, Zero), Major);
    SumPlace(t, Entry(input, Zero), Minor);
  }

  /** Pressing a + button never turns a Fail into a Pass. */
  lemma IncrementNeverPasses(t: Tally, d: string, sev: Severity, delta: int, limits: Limits)
    requires Keyed(t) && d in Names(t) && delta >= 0
    requires ResultStatus(Totals(t), limits) == Fail
    ensures ResultStatus(Totals(UpdateCount(t, d, sev, delta)), limits) == Fail
  {
    var r := UpdateCount(t, d, sev, delta);
    var bad: Severity :| Totals(t).Get(bad) > limits.Get(bad);
    UpdateMovesOneTotal(t, d, sev, delta, bad);
    assert Totals(r).Get(bad) >= Totals(t).Get(bad);
  }

  /** One submitted defect line. */
  datatype DefectLine = DefectLine(description: string, severity: Severity, count: nat)

  function EntryLines(e: Entry): seq<DefectLine> {
    (if e.counts.critical > 0 then [DefectLine(e.name, Critical, e.counts.critical)] else [])
    + (if e.counts.major > 0 then [DefectLine(e.name, Major, e.counts.major)] else [])
    + (if e.counts.minor > 0 then [DefectLine(e.name, Minor, e.counts.minor)] else [])
  }

  /** The defect list sent with a new final inspection: one line per positive counter. */
  function Flatten(t: Tally): (lines: seq<DefectLine>)
    ensures forall i :: 0 <= i < |lines| ==> lines[i].count > 0 && lines[i].description in Names(t)
    decreases |t|
  {
    if |t| == 0 then []
    else
      assert Names(t) == [t[0].name] + Names(t[1..]);
      EntryLines(t[0]) + Flatten(t[1..])
  }

  function SumLines(lines: seq<DefectLine>, sev: Severity): nat
    decreases |lines|
  {
    if |lines| == 0 then 0
    else (if lines[0].severity == sev then lines[0].count else 0) + SumLines(lines[1..], sev)
  }

  lemma {:induction false} SumLinesAppend(a: seq<DefectLine>, b: seq<DefectLine>, sev: Severity)
    ensures SumLines(a + b, sev) == SumLines(a, sev) + SumLines(b, sev)
    decreases |a|
  {
    if |a| > 0 {
      assert (a + b)[1..] == a[1..] + b;
      SumLinesAppend(a[1..], b, sev);
    } else {
      assert a + b == b;
    }
  }

  /** One defect's lines carry exactly its counters. */
  lemma EntryLinesSum(e: Entry, sev: Severity)
    ensures SumLines(EntryLines(e), sev) == e.counts.Get(sev)
  {
    var c := if e.counts.critical > 0 then [DefectLine(e.name, Critical, e.counts.critical)] else [];
    var m := if e.counts.major > 0 then [DefectLine(e.name, Major, e.counts.major)] else [];
    var n := if e.counts.minor > 0 then [DefectLine(e.name, Minor, e.counts.minor)] else [];
    SumLinesAppend(c + m, n, sev);
    SumLinesAppend(c, m, sev);
  }

  /** The submitted lines of each severity add up to that severity's total. */
  lemma {:induction false} FlattenKeepsTotals(t: Tally, sev: Severity)
    ensures SumLines(Flatten(t), sev) == Sum(t, sev)
    decreases |t|
  {
    if |t| > 0 {
      SumLinesAppend(EntryLines(t[0]), Flatten(t[1..]), sev);
      EntryLinesSum(t[0], sev);
      FlattenKeepsTotals(t[1..], sev);
    }
  }

  /** Line `l` reports entry `e`: the same defect, and `l`'s count is that entry's positive counter for `l`'s severity. */
  ghost predicate Reports(e: Entry, l: DefectLine) {
    e.name == l.description && l.count > 0 && e.counts.Get(l.severity) == l.count
  }

  lemma EntryLinesMembers(e: Entry, l: DefectLine)
    ensures l in EntryLines(e) <==> Reports(e, l)
  {
  }

  /** A line is submitted exactly for each defect and severity whose counter is positive, with that count. */
  lemma {:induction false} FlattenMembers(t: Tally, l: DefectLine)
    ensures l in Flatten(t) <==> exists i :: 0 <= i < |t| && Reports(t[i], l)
    decreases |t|
  {
    if |t| > 0 {
      var rest := t[1..];
      FlattenMembers(rest, l);
      EntryLinesMembers(t[0], l);
      assert Flatten(t) == EntryLines(t[0]) + Flatten(rest);
      if l in Flatten(rest) {
        var i :| 0 <= i < |rest| && Reports(rest[i], l);
        assert t[i + 1] == rest[i];
      }
      if exists i :: 0 <= i < |t| && Reports(t[i], l) {
        var i :| 0 <= i < |t| && Reports(t[i], l);
        if i > 0 {
          assert rest[i - 1] == t[i];
        }
      }
    }
  }

  /** The place of a line in submission order: its defect's position, then its severity's rank. */
  function LineKey(t: Tally, l: DefectLine): nat
    requires l.description in Names(t)
  {
    3 * Pos(t, l.description) + l.severity.Rank()
  }

  /** Every line names a defect of `t`. */
  ghost predicate Named(t: Tally, lines: seq<DefectLine>) {
    forall i :: 0 <= i < |lines| ==> lines[i].description in Names(t)
  }

  /** The lines are in strictly increasing submission order. */
  ghost predicate Ascending(t: Tally, lines: seq<DefectLine>)
    requires Named(t, lines)
  {
    forall i, j :: 0 <= i < j < |lines| ==> LineKey(t, lines[i]) < LineKey(t, lines[j])
  }

  /** Two ascending runs, every key of the first below every key of the second, join into one. */
  lemma JoinAscending(t: Tally, a: seq<DefectLine>, b: seq<DefectLine>)
    requires Named(t, a) && Named(t, b) && Ascending(t, a) && Ascending(t, b)
    requires forall i, j :: 0 <= i < |a| && 0 <= j < |b| ==> LineKey(t, a[i]) < LineKey(t, b[j])
    ensures Named(t, a + b) && Ascending(t, a + b)
  {
    var c := a + b;
    forall i | 0 <= i < |c| ensures c[i].description in Names(t) {
      if i < |a| {
        assert c[i] == a[i];
      } else {
        assert c[i] == b[i - |a|];
      }
    }
    forall i, j | 0 <= i < j < |c| ensures LineKey(t, c[i]) < LineKey(t, c[j]) {
      if j < |a| {
        assert c[i] == a[i] && c[j] == a[j];
      } else if i < |a| {
        assert c[i] == a[i] && c[j] == b[j - |a|];
      } else {
        assert c[i] == b[i - |a|] && c[j] == b[j - |a|];
      }
    }
  }

  /** The first defect's lines come first, in severity order. */
  lemma HeadAscending(t: Tally)
    requires |t| > 0
    ensures Named(t, EntryLines(t[0])) && Ascending(t, EntryLines(t[0]))
    ensures forall k :: 0 <= k < |EntryLines(t[0])| ==> LineKey(t, EntryLines(t[0])[k]) < 3
  {
    assert Names(t)[0] == t[0].name;
    assert Pos(t, t[0].name) == 0;
  }

  lemma PosInTail(t: Tally, d: string)
    requires Keyed(t) && |t| > 0 && d in Names(t[1..])
    ensures d in Names(t) && d != t[0].name && Pos(t, d) == 1 + Pos(t[1..], d)
  {
    var k := Pos(t[1..], d);
    assert t[k + 1] == t[1..][k];
    assert Names(t) == [t[0].name] + Names(t[1..]);
  }

  /** Lines ordered among the later defects keep their order, three places further on, among all of them. */
  lemma ShiftAscending(t: Tally, lines: seq<DefectLine>)
    requires Keyed(t) && |t| > 0
    requires Named(t[1..], lines) && Ascending(t[1..], lines)
    ensures Named(t, lines) && Ascending(t, lines)
    ensures forall k :: 0 <= k < |lines| ==> LineKey(t, lines[k]) >= 3
  {
    forall k | 0 <= k < |lines|
      ensures lines[k].description in Names(t) && LineKey(t, lines[k]) == 3 + LineKey(t[1..], lines[k])
    {
      PosInTail(t, lines[k].description);
    }
  }

  /** Lines come in the order the tally's keys are enumerated, and Critical, Major, Minor within one defect. */
  lemma {:induction false} FlattenOrdered(t: Tally)
    requires Keyed(t)
    ensures forall i :: 0 <= i < |Flatten(t)| ==> Flatten(t)[i].description in Names(t)
    ensures forall i, j :: 0 <= i < j < |Flatten(t)| ==>
      LineKey(t, Flatten(t)[i]) < LineKey(t, Flatten(t)[j])
    decreases |t|
  {
    if |t| > 0 {
      var rest := t[1..];
      FlattenOrdered(rest);
      ShiftAscending(t, Flatten(rest));
      HeadAscending(t);
      JoinAscending(t, EntryLines(t[0]), Flatten(rest));
      assert Flatten(t) == EntryLines(t[0]) + Flatten(rest);
    }
  }

  /** No defect and severity pair is submitted twice. */
  lemma FlattenNoRepeats(t: Tally)
    requires Keyed(t)
    ensures forall i, j :: 0 <= i < j < |Flatten(t)| ==>
      Flatten(t)[i].description != Flatten(t)[j].description || Flatten(t)[i].severity != Flatten(t)[j].severity
  {
    FlattenOrdered(t);
  }
}
