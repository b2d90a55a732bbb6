/**
 * The check a chosen file must pass before it may stay in its shot's file input,
 * whether it came from the picker or from a camera capture: first the size, then the type.
 */
module FileAcceptance {
  import opened Text

  /** 10 MiB, the per-file limit shared by the page and the upload server. */
  const MaxFileBytes: nat := 10 * 1024 * 1024

  const ImagePrefix: string := "image/"

  datatype File = File(name: string, size: nat, mimeType: string)

  datatype Verdict = Accepted | TooLarge | NotAnImage

  predicate IsImageType(mimeType: string) {
    StartsWith(mimeType, ImagePrefix)
  }

  /** The verdict of the file input's change handler; the size test comes before the type test. */
  function Check(f: File): (v: Verdict)
    ensures v == Accepted <==> f.size <= MaxFileBytes && IsImageType(f.mimeType)
    ensures v == TooLarge <==> f.size > MaxFileBytes
    ensures v == NotAnImage <==> f.size <= MaxFileBytes && !IsImageType(f.mimeType)
  {
    if f.size > MaxFileBytes then TooLarge
    else if !IsImageType(f.mimeType) then NotAnImage
    else Accepted
  }

  /** The text the upload card's status line shows after the handler ran. */
  function StatusText(f: File): (t: string)
    ensures Check(f) == Accepted ==> t == "\U{2713} " + f.name
    ensures Check(f) == TooLarge ==> t == "File too large (max 10MB)"
    ensures Check(f) == NotAnImage ==> t == "Please select an image file"
  {
    match Check(f)
    case TooLarge => "File too large (max 10MB)"
    case NotAnImage => "Please select an image file"
    case Accepted => "\U{2713} " + f.name
  }

  /** Exactly 10 MiB passes and one byte more does not, whatever the image type. */
  lemma SizeBoundary(name: string, mimeType: string)
    requires IsImageType(mimeType)
    ensures Check(File(name, 10 * 1024 * 1024, mimeType)) == Accepted
    ensures Check(File(name, 10 * 1024 * 1024 + 1, mimeType)) == TooLarge
  {
  }

  /** A text file is refused at every size; a small PNG is accepted. */
  lemma TypeExamples(name: string, size: nat)
    ensures Check(File(name, size, "text/plain")) != Accepted
    ensures Check(File(name, 1024, "image/png")) == Accepted
  {
    assert "text/plain"[..6] != ImagePrefix by { assert "text/plain"[0] == 't'; }
    assert "image/png"[..6] == ImagePrefix;
  }

  /** A camera capture is a JPEG, so only its size can make the check refuse it. */
  lemma CaptureTypeAccepted(name: string, size: nat)
    ensures Check(File(name, size, "image/jpeg")) == Accepted <==> size <= MaxFileBytes
  {
    assert "image/jpeg"[..6] == ImagePrefix;
  }
}
