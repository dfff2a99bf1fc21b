/** The four fixed picture slots of the sample-evaluation form: choosing a
    file (with its automatic caption), editing a caption, the reset after a
    successful create, and the uploads issued once the inspection exists. */
module ImageSlots {
  import opened Wrappers

  /** A file chosen in the browser, known here only by identity. */
  datatype File = File(id: nat)

  datatype Slot = Slot(file: Option<File>, caption: string)

  /** The number of picture slots the form always shows. */
  const SlotCount: nat := 4

  const EmptySlot := Slot(None, "")

  /** The slots when the form opens, and again after a successful create resets it. */
  function InitialSlots(): (slots: seq<Slot>)
    ensures |slots| == SlotCount
    ensures forall i :: 0 <= i < |slots| ==> slots[i].file.None? && slots[i].caption == ""
  {
    [EmptySlot, EmptySlot, EmptySlot, EmptySlot]
  }

  /** The caption a slot receives automatically when a file is chosen while its caption is empty. */
  function AutoCaption(index: nat): string {
    if index == 0 then "Front View" else if index == 1 then "Back View" else ""
  }

  /** Choosing (or clearing) the file of slot `index`. */
  function ChangeImage(slots: seq<Slot>, index: nat, file: Option<File>): (r: seq<Slot>)
    requires index < |slots|
    ensures |r| == |slots|
    ensures r[index].file == file
    ensures file.Some? && slots[index].caption == "" && index == 0 ==> r[index].caption == "Front View"
    ensures file.Some? && slots[index].caption == "" && index == 1 ==> r[index].caption == "Back View"
    ensures file.None? || slots[index].caption != "" || index >= 2 ==> r[index].caption == slots[index].caption
    ensures forall i :: 0 <= i < |slots| && i != index ==> r[i] == slots[i]
  {
    var caption := if file.Some? && slots[index].caption == "" then AutoCaption(index) else slots[index].caption;
    slots[index := Slot(file, caption)]
  }

  /** Typing a caption for slot `index`. */
  function ChangeCaption(slots: seq<Slot>, index: nat, text: string): (r: seq<Slot>)
    requires index < |slots|
    ensures |r| == |slots|
    ensures r[index] == Slot(slots[index].file, text)
    ensures forall i :: 0 <= i < |slots| && i != index ==> r[i] == slots[i]
  {
    slots[index := slots[index].(caption := text)]
  }

  /** Edits never change the number of slots: from the initial four, any sequence of edits leaves four. */
  datatype Edit = ImageEdit(index: nat, file: Option<File>) | CaptionEdit(index: nat, text: string)

  function ApplyEdits(slots: seq<Slot>, edits: seq<Edit>): (r: seq<Slot>)
    ensures |r| == |slots|
    decreases |edits|
  {
    if |edits| == 0 then slots
    else
      var e := edits[0];
      var next :=
        if e.index >= |slots| then slots
        else match e
          case ImageEdit(i, f) => ChangeImage(slots, i, f)
          case CaptionEdit(i, t) => ChangeCaption(slots, i, t);
      ApplyEdits(next, edits[1..])
  }

  lemma AlwaysFourSlots(edits: seq<Edit>)
    ensures |ApplyEdits(InitialSlots(), edits)| == SlotCount
  {
  }

  /** One image upload request: the file and the caption field sent with it. */
  datatype Upload = Upload(file: File, caption: string)

  /** The indices from `start` on of the slots that hold a file, in slot order. */
  function FilledFrom(slots: seq<Slot>, start: nat): (idx: seq<nat>)
    requires start <= |slots|
    ensures forall k :: 0 <= k < |idx| ==> start <= idx[k] < |slots| && slots[idx[k]].file.Some?
    ensures forall i :: start <= i < |slots| && slots[i].file.Some? ==> i in idx
    ensures forall a, b :: 0 <= a < b < |idx| ==> idx[a] < idx[b]
    decreases |slots| - start
  {
    if start == |slots| then []
    else
      var rest := FilledFrom(slots, start + 1);
      if slots[start].file.Some? then [start] + rest else rest
  }

  /** The indices of the slots that hold a file, in slot order. */
  function FilledIndices(slots: seq<Slot>): (idx: seq<nat>)
    ensures forall k :: 0 <= k < |idx| ==> idx[k] < |slots| && slots[idx[k]].file.Some?
    ensures forall i :: 0 <= i < |slots| && slots[i].file.Some? ==> i in idx
    ensures forall a, b :: 0 <= a < b < |idx| ==> idx[a] < idx[b]
  {
    FilledFrom(slots, 0)
  }

  /** The upload requests the loop issues after the inspection is created, as long as none is
      refused: only filled slots, in slot order, an empty caption replaced by "Inspection Image". */
  function Uploads(slots: seq<Slot>): (ups: seq<Upload>)
    ensures |ups| == |FilledIndices(slots)| <= |slots|
    ensures forall k :: 0 <= k < |ups| ==>
      var s := slots[FilledIndices(slots)[k]];
      ups[k].file == s.file.value
      && ups[k].caption == (if s.caption == "" then "Inspection Image" else s.caption)
  {
    var idx := FilledIndices(slots);
    IndicesBounded(idx, |slots|);
    seq(|idx|, k requires 0 <= k < |idx| =>
      var s := slots[idx[k]];
      Upload(s.file.value, if s.caption == "" then "Inspection Image" else s.caption))
  }

  /** A strictly increasing list of indices below `n` has at most `n` entries. */
  lemma {:induction false} IndicesBounded(idx: seq<nat>, n: nat)
    requires forall k :: 0 <= k < |idx| ==> idx[k] < n
    requires forall a, b :: 0 <= a < b < |idx| ==> idx[a] < idx[b]
    ensures |idx| <= n
    decreases n
  {
    if |idx| > 0 {
      var front := idx[..|idx| - 1];
      assert forall k :: 0 <= k < |front| ==> front[k] < idx[|idx| - 1] <= n - 1;
      IndicesBounded(front, n - 1);
    }
  }

  /** Every upload caption is non-empty, so the server default is never used by this form. */
  lemma UploadCaptionsNonEmpty(slots: seq<Slot>)
    ensures forall k :: 0 <= k < |Uploads(slots)| ==> Uploads(slots)[k].caption != ""
  {
  }

  /** No file from `start` on means no filled index from `start` on. */
  lemma {:induction false} NoFilesFrom(slots: seq<Slot>, start: nat)
    requires start <= |slots|
    requires forall i :: start <= i < |slots| ==> slots[i].file.None?
    ensures FilledFrom(slots, start) == []
    decreases |slots| - start
  {
    if start < |slots| {
      NoFilesFrom(slots, start + 1);
    }
  }

  /** Slots without files produce no upload. */
  lemma NoFilesNoUploads(slots: seq<Slot>)
    requires forall i :: 0 <= i < |slots| ==> slots[i].file.None?
    ensures Uploads(slots) == []
  {
    NoFilesFrom(slots, 0);
  }

  /** A freshly reset form uploads nothing. */
  lemma ResetUploadsNothing()
    ensures Uploads(InitialSlots()) == []
  {
    NoFilesNoUploads(InitialSlots());
  }
}
