/** The pure rules inside the backend views: what the PDF report prints for
    the decision, the measurement table and the images, whom the report
    email goes to, the image-upload guard, and the dashboard pass rate. */
module ReportViews {
  import opened Wrappers
  import Text
  import ImageSlots

  // ---------------------------------------------------------------- report header

  /** A missing or empty decision is reported as pending. */
  function DecisionText(decision: Option<string>): string {
    OrElse(decision, "PENDING")
  }

  /** The report reads "PENDING" exactly when no decision is recorded or the recorded one is that word,
      so a pending report cannot be told apart from one whose decision is literally "PENDING". */
  lemma PendingDecision(decision: Option<string>)
    ensures DecisionText(decision) != ""
    ensures DecisionText(decision) == "PENDING" <==>
      decision.None? || decision.value == "" || decision.value == "PENDING"
  {
  }

  datatype Colour = Red | Green | Black

  /** The decision is printed red when rejected, green when approved, black otherwise. */
  function DecisionColour(decision: Option<string>): (c: Colour)
    ensures c == Red <==> DecisionText(decision) == "Rejected"
    ensures c == Green <==> DecisionText(decision) == "Approved"
  {
    var d := DecisionText(decision);
    if d == "Rejected" then Red else if d == "Approved" then Green else Black
  }

  /** A pending report is printed in black. */
  lemma PendingIsBlack()
    ensures DecisionColour(None) == Black && DecisionColour(Some("")) == Black
  {
  }

  /** The headline next to the title, with the decision upper-cased. */
  function Headline(decision: Option<string>): (r: string)
    ensures Text.StartsWith(r, "DECISION: ")
    ensures r[|"DECISION: "|..] == Text.Upper(DecisionText(decision))
  {
    "DECISION: " + Text.Upper(DecisionText(decision))
  }

  /** A report without a decision is headed "DECISION: PENDING". */
  lemma HeadlinePending(decision: Option<string>)
    requires decision.None? || decision.value == ""
    ensures Headline(decision) == "DECISION: PENDING"
  {
    assert Text.Upper("PENDING") == "PENDING";
  }

  /** The stored letter case of a decision does not show in the headline. */
  lemma HeadlineIgnoresCase(d: string)
    ensures Headline(Some(d)) == Headline(Some(Text.Lower(d)))
    ensures Headline(Some(d)) == Headline(Some(Text.Upper(d)))
  {
    Text.UpperLower(d);
    assert Text.Upper(Text.Upper(d)) == Text.Upper(d);
  }

  // ---------------------------------------------------------------- measurement table

  const PomWidth := 35

  /** A point-of-measure name longer than 35 characters is cut to 35 and marked with "..". */
  function PomDisplay(name: string): (r: string)
    ensures |name| <= PomWidth ==> r == name
    ensures |name| > PomWidth ==> |r| == PomWidth + 2 && r[..PomWidth] == name[..PomWidth] && r[PomWidth..] == ".."
  {
    if |name| > PomWidth then name[..PomWidth] + ".." else name
  }

  /** The shown name never exceeds 37 characters and starts like the name; it equals the name
      when the name fits, and otherwise only for a 37-character name that already ends in "..". */
  lemma PomDisplayBounds(name: string)
    ensures |PomDisplay(name)| <= PomWidth + 2
    ensures Text.StartsWith(PomDisplay(name), name[..if |name| < PomWidth then |name| else PomWidth])
    ensures PomDisplay(name) == name <==>
      |name| <= PomWidth || (|name| == PomWidth + 2 && name[PomWidth..] == "..")
  {
    if |name| == PomWidth + 2 && name[PomWidth..] == ".." {
      assert name == name[..PomWidth] + name[PomWidth..];
    }
  }

  /** A sample cell: the value, or a dash for a missing value and also for 0.0, which is falsy. */
  datatype Cell = Dash | Shown(value: real)

  function SampleCell(sample: Option<real>): (c: Cell)
    ensures c == Dash <==> sample.None? || sample.value == 0.0
    ensures c.Shown? ==> c.value == sample.value
  {
    if sample.None? || sample.value == 0.0 then Dash else Shown(sample.value)
  }

  /** Two samples print alike exactly when they are equal or each is missing or zero: the report
      cannot tell a measured 0.0 from a missing sample, and loses nothing else. */
  lemma SampleCellsAlike(a: Option<real>, b: Option<real>)
    ensures SampleCell(a) == SampleCell(b) <==>
      a == b || ((a.None? || a.value == 0.0) && (b.None? || b.value == 0.0))
  {
  }

  // ---------------------------------------------------------------- images page

  /** A stored image: its caption and whether its file could be opened and drawn. */
  datatype StoredImage = StoredImage(caption: string, loads: bool)

  /** What is drawn for one image slot: the caption below a drawn image, or an error note in its place. */
  datatype Drawn = Captioned(x: int, y: int, text: string) | LoadError(x: int, y: int)

  /** Letter paper is 792 points high. */
  const PageHeight := 792

  /** The four cells of the 2 by 2 grid, left to right and top to bottom. */
  const Positions: seq<(int, int)> := [(50, PageHeight - 300), (320, PageHeight - 300), (50, PageHeight - 550), (320, PageHeight - 550)]

  function DrawImage(img: StoredImage, i: nat): (d: Drawn)
    requires i < |Positions|
    ensures d.x == Positions[i].0
    ensures img.loads ==> d == Captioned(Positions[i].0, Positions[i].1 - 15, if img.caption == "" then "Image" else img.caption)
    ensures !img.loads ==> d == LoadError(Positions[i].0, Positions[i].1)
  {
    var (x, y) := Positions[i];
    if img.loads then Captioned(x, y - 15, if img.caption == "" then "Image" else img.caption)
    else LoadError(x, y)
  }

  /** The images page draws at most the first four images, the `i`-th in grid cell `i`. */
  function ImagesPage(images: seq<StoredImage>): (r: seq<Drawn>)
    ensures |r| == if |images| < 4 then |images| else 4
    ensures forall i :: 0 <= i < |r| ==> r[i] == DrawImage(images[i], i)
  {
    var n := if |images| < 4 then |images| else 4;
    seq(n, i requires 0 <= i < n => DrawImage(images[i], i))
  }

  /** Images beyond the fourth never reach the page. */
  lemma ExtraImagesIgnored(images: seq<StoredImage>, more: seq<StoredImage>)
    requires |images| >= 4
    ensures ImagesPage(images + more) == ImagesPage(images)
  {
    var a, b := ImagesPage(images + more), ImagesPage(images);
    assert forall i :: 0 <= i < 4 ==> (images + more)[i] == images[i];
    assert |a| == |b| == 4;
  }

  /** No two images share a grid cell. */
  lemma CellsDistinct(images: seq<StoredImage>)
    ensures forall i, j :: 0 <= i < j < |ImagesPage(images)| ==>
      (ImagesPage(images)[i].x, ImagesPage(images)[i].y) != (ImagesPage(images)[j].x, ImagesPage(images)[j].y)
  {
  }

  // ---------------------------------------------------------------- email and upload

  /** How an action fails: a 400 response with its message, or an unhandled database error. */
  datatype Failure = BadRequest(message: string) | ServerError

  /** The report email goes to the requested recipients, or failing those to the customer's addresses. */
  function Recipients(requested: Option<seq<string>>, customerEmails: Option<seq<string>>): (r: Result<seq<string>, Failure>)
    ensures requested.Some? && requested.value != [] ==> r == Ok(requested.value)
    ensures (requested.None? || requested.value == []) && customerEmails.Some? && customerEmails.value != [] ==>
      r == Ok(customerEmails.value)
    ensures r.Err? <==>
      (requested.None? || requested.value == []) && (customerEmails.None? || customerEmails.value == [])
    ensures r.Ok? ==> r.value != []
  {
    var asked := requested.GetOr([]);
    var to := if asked == [] && customerEmails.Some? then customerEmails.value else asked;
    if to == [] then Err(BadRequest("No recipients found.")) else Ok(to)
  }

  /** The mail goes to one of the two supplied lists, whole; the customer's addresses are not
      consulted at all when recipients are requested. */
  lemma RecipientsFromSupplied(requested: Option<seq<string>>, customerEmails: Option<seq<string>>, otherEmails: Option<seq<string>>)
    ensures Recipients(requested, customerEmails).Ok? ==>
      (requested.Some? && Recipients(requested, customerEmails).value == requested.value)
      || (customerEmails.Some? && Recipients(requested, customerEmails).value == customerEmails.value)
    ensures requested.Some? && requested.value != [] ==>
      Recipients(requested, customerEmails) == Recipients(requested, otherEmails)
  {
  }

  /** A stored inspection image: the file and its caption. */
  datatype StoredUpload = StoredUpload(file: nat, caption: string)

  /** The width of the caption column; the production database refuses a longer caption. */
  const CaptionWidth: nat := 100

  /** The upload action: a request without a file is refused; a caption that is absent (not one
      that is empty) defaults; a caption wider than the column fails when the row is written,
      which surfaces as a server error rather than a validation message. */
  function UploadImage(file: Option<nat>, caption: Option<string>): (r: Result<StoredUpload, Failure>)
    ensures r.Err? <==> file.None? || |caption.GetOr("Inspection Image")| > CaptionWidth
    ensures r.Err? ==> (r.error.BadRequest? <==> file.None?)
    ensures r.Ok? ==> r.value.file == file.value && |r.value.caption| <= CaptionWidth
    ensures r.Ok? && caption.None? ==> r.value.caption == "Inspection Image"
    ensures r.Ok? && caption.Some? ==> r.value.caption == caption.value
  {
    var c := caption.GetOr("Inspection Image");
    if file.None? then Err(BadRequest("No image provided"))
    else if |c| > CaptionWidth then Err(ServerError)
    else Ok(StoredUpload(file.value, c))
  }

  /** How the form's upload loop ends: the images stored, in order, and whether every request
      went through. */
  datatype UploadRun = UploadRun(stored: seq<StoredUpload>, completed: bool)

  /** The upload loop after the inspection is created: the requests go out one at a time, in
      order, each awaited; the first refused request throws out of the loop, so no later request
      is sent. What is stored is exactly the requests before the first over-wide caption. */
  function UploadAll(ups: seq<ImageSlots.Upload>): (r: UploadRun)
    ensures |r.stored| <= |ups|
    ensures r.completed <==> forall k :: 0 <= k < |ups| ==> |ups[k].caption| <= CaptionWidth
    ensures r.completed ==> |r.stored| == |ups|
    ensures forall k :: 0 <= k < |r.stored| ==>
      r.stored[k] == StoredUpload(ups[k].file.id, ups[k].caption) && |ups[k].caption| <= CaptionWidth
    ensures !r.completed ==> |r.stored| < |ups| && |ups[|r.stored|].caption| > CaptionWidth
    decreases |ups|
  {
    if ups == [] then UploadRun([], true)
    else
      match UploadImage(Some(ups[0].file.id), Some(ups[0].caption))
      case Err(_) => UploadRun([], false)
      case Ok(first) =>
        var rest := UploadAll(ups[1..]);
        assert forall k :: 0 < k < |ups| ==> ups[k] == ups[1..][k - 1];
        UploadRun([first] + rest.stored, rest.completed)
  }

  /** The picture slots once the create has finished: reset to the four empty slots only when
      every upload went through; a failure leaves them as they were. */
  function SlotsAfterCreate(slots: seq<ImageSlots.Slot>): (r: seq<ImageSlots.Slot>)
    ensures UploadAll(ImageSlots.Uploads(slots)).completed ==> r == ImageSlots.InitialSlots()
    ensures !UploadAll(ImageSlots.Uploads(slots)).completed ==> r == slots
  {
    if UploadAll(ImageSlots.Uploads(slots)).completed then ImageSlots.InitialSlots() else slots
  }

  /** The sample-evaluation form sends only non-empty captions; the images stored are those of its
      requests up to the first caption wider than the column, each with the caption it sent; the
      form resets exactly when no caption is too wide. */
  lemma FormUploadsAccepted(slots: seq<ImageSlots.Slot>)
    ensures forall k :: 0 <= k < |ImageSlots.Uploads(slots)| ==> ImageSlots.Uploads(slots)[k].caption != ""
    ensures forall k :: 0 <= k < |UploadAll(ImageSlots.Uploads(slots)).stored| ==>
      UploadAll(ImageSlots.Uploads(slots)).stored[k].caption == ImageSlots.Uploads(slots)[k].caption != ""
    ensures UploadAll(ImageSlots.Uploads(slots)).completed <==>
      forall k :: 0 <= k < |ImageSlots.Uploads(slots)| ==> |ImageSlots.Uploads(slots)[k].caption| <= CaptionWidth
    ensures (SlotsAfterCreate(slots) == ImageSlots.InitialSlots()) <==>
      (UploadAll(ImageSlots.Uploads(slots)).completed || slots == ImageSlots.InitialSlots())
  {
    ImageSlots.UploadCaptionsNonEmpty(slots);
  }

  /** An over-wide caption in the first slot stops the loop before the second slot's image is sent,
      and the form keeps its slots. */
  lemma LongFirstCaptionStopsUploads(slots: seq<ImageSlots.Slot>, f0: ImageSlots.File, f1: ImageSlots.File, caption: string)
    requires |caption| > CaptionWidth
    requires slots == [ImageSlots.Slot(Some(f0), caption), ImageSlots.Slot(Some(f1), "Back View"), ImageSlots.EmptySlot, ImageSlots.EmptySlot]
    ensures ImageSlots.Uploads(slots) == [ImageSlots.Upload(f0, caption), ImageSlots.Upload(f1, "Back View")]
    ensures UploadAll(ImageSlots.Uploads(slots)) == UploadRun([], false)
    ensures SlotsAfterCreate(slots) == slots
  {
    FirstTwoFilled(slots, f0, f1, caption);
  }

  /** With only the first two slots filled, both with a caption, the loop issues their two requests in order. */
  lemma FirstTwoFilled(slots: seq<ImageSlots.Slot>, f0: ImageSlots.File, f1: ImageSlots.File, caption: string)
    requires caption != ""
    requires slots == [ImageSlots.Slot(Some(f0), caption), ImageSlots.Slot(Some(f1), "Back View"), ImageSlots.EmptySlot, ImageSlots.EmptySlot]
    ensures ImageSlots.Uploads(slots) == [ImageSlots.Upload(f0, caption), ImageSlots.Upload(f1, "Back View")]
  {
    assert ImageSlots.FilledIndices(slots) == [0, 1] by {
      assert ImageSlots.FilledFrom(slots, 4) == [];
      assert ImageSlots.FilledFrom(slots, 3) == [];
      assert ImageSlots.FilledFrom(slots, 2) == [];
      assert ImageSlots.FilledFrom(slots, 1) == [1];
    }
    var ups := ImageSlots.Uploads(slots);
    assert |ups| == 2;
    assert ups[0] == ImageSlots.Upload(f0, caption);
    assert ups[1] == ImageSlots.Upload(f1, "Back View");
  }

  /** A single filled slot whose typed caption is wider than the column produces one upload, and
      that upload fails. */
  lemma LongCaptionUploadFails(f: ImageSlots.File, caption: string)
    requires |caption| > CaptionWidth
    ensures ImageSlots.Uploads([ImageSlots.Slot(Some(f), caption)]) == [ImageSlots.Upload(f, caption)]
    ensures UploadImage(Some(f.id), Some(caption)) == Err(ServerError)
  {
    var slots := [ImageSlots.Slot(Some(f), caption)];
    assert ImageSlots.FilledIndices(slots) == [0] by {
      assert ImageSlots.FilledFrom(slots, 1) == [];
    }
  }

  // ---------------------------------------------------------------- dashboard figures

  /** How many decisions equal `d`. */
  function CountDecision(decisions: seq<Option<string>>, d: string): (n: nat)
    ensures n <= |decisions|
    ensures n == 0 <==> Some(d) !in decisions
    decreases |decisions|
  {
    if |decisions| == 0 then 0
    else
      assert decisions == decisions[..|decisions| - 1] + [decisions[|decisions| - 1]];
      CountDecision(decisions[..|decisions| - 1], d) + (if decisions[|decisions| - 1] == Some(d) then 1 else 0)
  }

  /** Every inspection is counted exactly when every decision is `d`. */
  lemma {:induction false} CountDecisionAll(decisions: seq<Option<string>>, d: string)
    ensures CountDecision(decisions, d) == |decisions| <==> forall x :: x in decisions ==> x == Some(d)
    decreases |decisions|
  {
    if |decisions| > 0 {
      var prev, last := decisions[..|decisions| - 1], decisions[|decisions| - 1];
      CountDecisionAll(prev, d);
      assert decisions == prev + [last];
      assert CountDecision(decisions, d) == |decisions| <==> CountDecision(prev, d) == |prev| && last == Some(d);
      assert forall x :: x in decisions <==> x in prev || x == last;
      if CountDecision(prev, d) != |prev| {
        var x :| x in prev && x != Some(d);
        assert x in decisions;
      } else if last != Some(d) {
        assert last in decisions;
      }
    }
  }

  /** Passes and fails are disjoint, so together they never exceed the number of inspections. */
  lemma {:induction false} PassPlusFailBounded(decisions: seq<Option<string>>)
    ensures CountDecision(decisions, "Approved") + CountDecision(decisions, "Rejected") <= |decisions|
    decreases |decisions|
  {
    if |decisions| > 0 {
      PassPlusFailBounded(decisions[..|decisions| - 1]);
    }
  }

  lemma QuotientNonNegative(p: real, w: real)
    requires 0.0 <= p && 0.0 < w
    ensures 0.0 <= p / w
  {
  }

  lemma QuotientAtMostOne(p: real, w: real)
    requires p <= w && 0.0 < w
    ensures p / w <= 1.0
  {
  }

  lemma QuotientIsOne(p: real, w: real)
    requires 0.0 < w
    ensures p / w == 1.0 <==> p == w
  {
    assert (p / w) * w == p;
  }

  lemma RatioIsZero(part: nat, whole: nat)
    requires 0 < whole
    ensures (part as real) / (whole as real) * 100.0 == 0.0 <==> part == 0
  {
    if part > 0 {
      QuotientPositive(part as real, whole as real);
    }
  }

  lemma QuotientPositive(p: real, w: real)
    requires 0.0 < p && 0.0 < w
    ensures 0.0 < p / w
  {
  }

  /** A part of a positive whole is a ratio between 0 and 1, and 1 only for the whole itself. */
  lemma RatioAtMostOne(part: nat, whole: nat)
    requires 0 < whole && part <= whole
    ensures 0.0 <= (part as real) / (whole as real) <= 1.0
    ensures (part as real) / (whole as real) == 1.0 <==> part == whole
  {
    QuotientNonNegative(part as real, whole as real);
    QuotientAtMostOne(part as real, whole as real);
    QuotientIsOne(part as real, whole as real);
  }

  /** The pass percentage: passes over all inspections, and 0 when there are none. */
  function PassRate(decisions: seq<Option<string>>): (r: real)
    ensures |decisions| == 0 ==> r == 0.0
    ensures 0.0 <= r <= 100.0
    ensures r == 100.0 <==> |decisions| > 0 && CountDecision(decisions, "Approved") == |decisions|
    ensures r == 100.0 <==> |decisions| > 0 && forall x :: x in decisions ==> x == Some("Approved")
    ensures r == 0.0 <==> Some("Approved") !in decisions
  {
    var total := |decisions|;
    var pass := CountDecision(decisions, "Approved");
    CountDecisionAll(decisions, "Approved");
    if total > 0 then
      RatioAtMostOne(pass, total);
      RatioIsZero(pass, total);
      (pass as real) / (total as real) * 100.0
    else 0.0
  }
}
