/**
 * The guided camera mode: a cursor over the nine shots that only moves forward,
 * the live camera stream, the captured photos keyed by shot id, and the text the
 * camera screen shows. Each capture is also written into the shot's file input.
 */
module Sequencer {
  import opened Wrappers
  import opened Text
  import opened Shots
  import opened FileAcceptance
  import opened Form

  datatype Screen = FormScreen | CameraScreen

  /** The counter `${index + 1} of ${N}`: one digit, the 1-based position, followed by " of 9". */
  function PhotoCount(index: nat): (text: string)
    requires index < |Sequence|
    ensures |text| == 6 && text[1..] == " of 9"
    ensures AllDigits(text[..1]) && DecimalToNat(text[..1]) == index + 1
  {
    var position := NatToDecimal(index + 1);
    DecimalRoundTrip(index + 1);
    assert NatToDecimal(9) == "9";
    var text := position + " of " + NatToDecimal(|Sequence|);
    assert text[..1] == position;
    text
  }

  /** The confirm button's label after a capture: "Finish" exactly on the last shot. */
  function ConfirmLabel(index: nat): (caption: string)
    requires index < |Sequence|
    ensures caption == "Finish" <==> index == |Sequence| - 1
    ensures caption == "Next Photo \U{2192}" <==> index < |Sequence| - 1
  {
    assert "Next Photo \U{2192}"[0] != "Finish"[0];
    if index < |Sequence| - 1 then "Next Photo \U{2192}" else "Finish"
  }

  /** The file a capture produces for shot `id`: a JPEG named after the shot, which only its size can get refused. */
  function CaptureFile(id: string, size: nat): (f: File)
    ensures f.size == size
    ensures Check(f) == Accepted <==> size <= MaxFileBytes
  {
    CaptureTypeAccepted(id + ".jpg", size);
    File(id + ".jpg", size, "image/jpeg")
  }

  /** `a` and `b` agree on every key outside `ids`. */
  ghost predicate SameOutside<V>(a: map<string, V>, b: map<string, V>, ids: set<string>) {
    forall id :: id !in ids ==> (id in a <==> id in b) && (id in a ==> a[id] == b[id])
  }

  /** A shot's file input after a capture of `size` bytes: it holds the capture unless the check refused it. */
  function PlaceCapture(files: map<string, File>, id: string, size: nat): map<string, File> {
    if size <= MaxFileBytes then files[id := CaptureFile(id, size)] else files - {id}
  }

  /**
   * Shot `j`'s capture of `size` bytes is in the capture store, in the shot's file input unless
   * the check refused it, and described on the shot's status line.
   */
  ghost predicate HoldsCapture(captured: map<string, File>, files: map<string, File>, status: map<string, string>,
                               j: nat, size: nat)
    requires j < |Sequence|
  {
    var id := Sequence[j].id;
    && id in captured && captured[id] == CaptureFile(id, size)
    && (size <= MaxFileBytes ==> id in files && files[id] == CaptureFile(id, size))
    && (size > MaxFileBytes ==> id !in files)
    && id in status && status[id] == StatusText(CaptureFile(id, size))
  }

  /** The first `k` shots hold their captures. */
  ghost predicate RoundsDone(captured: map<string, File>, files: map<string, File>, status: map<string, string>,
                             k: nat, sizes: seq<nat>)
    requires k <= |Sequence| == |sizes|
  {
    forall j :: 0 <= j < k ==> HoldsCapture(captured, files, status, j, sizes[j])
  }

  /** A round for shot `k` records that shot and, the ids being distinct, keeps the earlier shots' records. */
  lemma RoundKeepsEarlier(captured: map<string, File>, files: map<string, File>, status: map<string, string>,
                          k: nat, sizes: seq<nat>)
    requires k < |Sequence| == |sizes| && RoundsDone(captured, files, status, k, sizes)
    ensures var id := Sequence[k].id;
      var f := CaptureFile(id, sizes[k]);
      RoundsDone(captured[id := f], PlaceCapture(files, id, sizes[k]), status[id := StatusText(f)], k + 1, sizes)
  {
    var id := Sequence[k].id;
    var f := CaptureFile(id, sizes[k]);
    var c, fs, st := captured[id := f], PlaceCapture(files, id, sizes[k]), status[id := StatusText(f)];
    IdsDistinct();
    forall j | 0 <= j < k + 1 ensures HoldsCapture(c, fs, st, j, sizes[j]) {
      if j < k {
        assert Sequence[j].id != id;
        assert HoldsCapture(captured, files, status, j, sizes[j]);
      }
    }
  }

  class CameraSession {
    /** The upload form whose file inputs captures are written into. */
    const form: UploadForm

    var index: nat
    /** Whether a camera stream is held (the source's `stream` is not null). */
    var streamActive: bool
    /** `capturedPhotos`: the latest capture of each shot. */
    var captured: map<string, File>
    var screen: Screen
    /** After a capture the confirm button replaces the capture button. */
    var confirmShown: bool
    var title: string
    var instruction: string
    var photoCount: string
    var confirmLabel: string

    ghost predicate Valid()
      reads this, form
    {
      && index < |Sequence|
      && captured.Keys <= IdSet()
      && form.Valid()
      && IdSet() <= form.fileInputs
    }

    /** The camera screen shows shot `index`, waiting for a capture. */
    ghost predicate ShowsShot()
      reads this
      requires index < |Sequence|
    {
      && title == Sequence[index].title
      && instruction == Sequence[index].instruction
      && photoCount == PhotoCount(index)
      && !confirmShown
    }

    constructor (form: UploadForm)
      requires form.Valid() && IdSet() <= form.fileInputs
      ensures Valid() && this.form == form
      ensures index == 0 && !streamActive && captured == map[] && screen == FormScreen && !confirmShown
    {
      this.form := form;
      index := 0;
      streamActive := false;
      captured := map[];
      screen := FormScreen;
      confirmShown := false;
      title, instruction, photoCount, confirmLabel := "", "", "", "";
    }

    /** `stopCamera`: release the stream if one is held; a second call changes nothing. */
    method StopCamera()
      modifies this`streamActive
      ensures !streamActive
      ensures !old(streamActive) ==> unchanged(this)
    {
      if streamActive {
        streamActive := false;
      }
    }

    /** The back button: release the camera and return to the form. */
    method BackToForm()
      modifies this`streamActive, this`screen
      ensures !streamActive && screen == FormScreen
    {
      StopCamera();
      screen := FormScreen;
    }

    method UpdatePhotoUI()
      requires index < |Sequence|
      modifies this`title, this`instruction, this`photoCount, this`confirmShown
      ensures ShowsShot()
    {
      title := Sequence[index].title;
      photoCount := PhotoCount(index);
      instruction := Sequence[index].instruction;
      confirmShown := false;
    }

    /**
     * The start button: rewind to the first shot and ask for the camera. `granted` is the
     * outcome of the camera request; a refusal falls back to the form, holding no stream.
     * Earlier captures are kept.
     */
    method Start(granted: bool)
      requires Valid()
      modifies this`screen, this`index, this`streamActive, this`title, this`instruction,
               this`photoCount, this`confirmShown
      ensures Valid()
      ensures index == 0 && ShowsShot()
      ensures streamActive == granted
      ensures screen == if granted then CameraScreen else FormScreen
    {
      screen := CameraScreen;
      index := 0;
      if granted {
        streamActive := true;
      } else {
        BackToForm();
      }
      UpdatePhotoUI();
    }

    /**
     * The capture button: store the frame as the current shot's file, overwriting any earlier
     * capture of that shot, and hand it to the shot's file input, which applies the size and
     * type check. Then show the confirm button with its label.
     */
    method Capture(blobSize: nat)
      requires Valid()
      modifies this`captured, this`confirmShown, this`confirmLabel, form`files, form`status, form`submitEnabled
      ensures Valid()
      ensures captured == old(captured)[Sequence[index].id := CaptureFile(Sequence[index].id, blobSize)]
      ensures blobSize <= MaxFileBytes ==>
        form.files == old(form.files)[Sequence[index].id := CaptureFile(Sequence[index].id, blobSize)]
      ensures blobSize > MaxFileBytes ==> form.files == old(form.files) - {Sequence[index].id}
      ensures form.status == old(form.status)[Sequence[index].id := StatusText(CaptureFile(Sequence[index].id, blobSize))]
      ensures form.submitEnabled == Ready(form.required, form.files, form.values)
      ensures confirmShown && confirmLabel == ConfirmLabel(index)
    {
      var id := Sequence[index].id;
      var file := CaptureFile(id, blobSize);
      captured := captured[id := file];
      form.Select(id, Some(file));
      confirmShown := true;
      confirmLabel := ConfirmLabel(index);
    }

    /**
     * The confirm button: move to the next shot, or after the last one release the camera
     * and return to the form. The cursor never moves back.
     */
    method Next()
      requires Valid()
      modifies this`index, this`streamActive, this`screen, this`title, this`instruction,
               this`photoCount, this`confirmShown
      ensures Valid()
      ensures old(index) <= index
      ensures old(index) < |Sequence| - 1 ==>
        index == old(index) + 1 && ShowsShot() && streamActive == old(streamActive) && screen == old(screen)
      ensures old(index) == |Sequence| - 1 ==>
        && index == old(index) && !streamActive && screen == FormScreen && confirmShown == old(confirmShown)
        && title == old(title) && instruction == old(instruction) && photoCount == old(photoCount)
    {
      if index < |Sequence| - 1 {
        index := index + 1;
        UpdatePhotoUI();
      } else {
        StopCamera();
        screen := FormScreen;
      }
    }

    /** One round of the walk: capture shot `k`, then confirm it. */
    method CaptureAndConfirm(k: nat, blobSizes: seq<nat>)
      requires Valid() && k < |Sequence| == |blobSizes|
      requires index == k && streamActive && screen == CameraScreen
      requires RoundsDone(captured, form.files, form.status, k, blobSizes)
      modifies this`captured, this`confirmShown, this`confirmLabel, this`index, this`streamActive, this`screen,
               this`title, this`instruction, this`photoCount, form`files, form`status, form`submitEnabled
      ensures Valid() && RoundsDone(captured, form.files, form.status, k + 1, blobSizes)
      ensures captured == old(captured)[Sequence[k].id := CaptureFile(Sequence[k].id, blobSizes[k])]
      ensures blobSizes[k] <= MaxFileBytes ==>
        form.files == old(form.files)[Sequence[k].id := CaptureFile(Sequence[k].id, blobSizes[k])]
      ensures blobSizes[k] > MaxFileBytes ==> form.files == old(form.files) - {Sequence[k].id}
      ensures form.status == old(form.status)[Sequence[k].id := StatusText(CaptureFile(Sequence[k].id, blobSizes[k]))]
      ensures form.values == old(form.values)
      ensures form.submitEnabled == Ready(form.required, form.files, form.values)
      ensures k + 1 < |Sequence| ==> index == k + 1 && ShowsShot() && streamActive && screen == CameraScreen
      ensures k + 1 == |Sequence| ==> index == k && !streamActive && screen == FormScreen
    {
      ghost var captured0, files0, status0 := captured, form.files, form.status;
      Capture(blobSizes[k]);
      Next();
      RoundKeepsEarlier(captured0, files0, status0, k, blobSizes);
      assert form.files == PlaceCapture(files0, Sequence[k].id, blobSizes[k]);
    }

    /**
     * A user's walk through camera mode with every request granted: start, then capture and
     * confirm each of the nine shots with the given frame sizes. Only the nine shot inputs and
     * their status lines change; the contact fields are untouched, and the button reflects the
     * result. With the page's required controls and every frame within the limit, the form is
     * then ready exactly when the contact fields are filled.
     */
    method CompleteWalk(blobSizes: seq<nat>)
      requires Valid() && |blobSizes| == |Sequence|
      modifies this`captured, this`confirmShown, this`confirmLabel, this`index, this`streamActive, this`screen,
               this`title, this`instruction, this`photoCount, form`files, form`status, form`submitEnabled
      ensures Valid()
      ensures captured.Keys == IdSet()
      ensures RoundsDone(captured, form.files, form.status, |Sequence|, blobSizes)
      ensures SameOutside(form.files, old(form.files), IdSet()) && SameOutside(form.status, old(form.status), IdSet())
      ensures form.values == old(form.values)
      ensures index == |Sequence| - 1 && !streamActive && screen == FormScreen
      ensures form.submitEnabled == Ready(form.required, form.files, form.values)
      ensures form.required == StandardRequired() && (forall k :: 0 <= k < |blobSizes| ==> blobSizes[k] <= MaxFileBytes)
        ==> (form.submitEnabled <==> ContactFilled(form.values))
    {
      Start(true);
      var k := 0;
      while k < |Sequence|
        invariant 0 <= k <= |Sequence|
        invariant Valid()
        invariant k < |Sequence| ==> index == k && streamActive && screen == CameraScreen
        invariant k == |Sequence| ==> index == k - 1 && !streamActive && screen == FormScreen
        invariant RoundsDone(captured, form.files, form.status, k, blobSizes)
        invariant SameOutside(form.files, old(form.files), IdSet()) && SameOutside(form.status, old(form.status), IdSet())
        invariant form.values == old(form.values)
        invariant k > 0 ==> form.submitEnabled == Ready(form.required, form.files, form.values)
      {
        assert Sequence[k].id in IdSet();
        CaptureAndConfirm(k, blobSizes);
        k := k + 1;
      }
      assert IdSet() <= captured.Keys by {
        forall id | id in IdSet() ensures id in captured {
          var j :| 0 <= j < |Sequence| && Sequence[j].id == id;
          assert HoldsCapture(captured, form.files, form.status, j, blobSizes[j]);
        }
      }
      if form.required == StandardRequired() && (forall k :: 0 <= k < |blobSizes| ==> blobSizes[k] <= MaxFileBytes) {
        forall i | 0 <= i < |Sequence| ensures Sequence[i].id in form.files {
          assert HoldsCapture(captured, form.files, form.status, i, blobSizes[i]);
        }
        StandardReadyIff(form.files, form.values);
      }
    }
  }
}
