# GutterSnap: guided photo capture and upload, modelled in Dafny

GutterSnap lets a homeowner send nine exterior photographs of their home plus contact
details. The page (`public/script.js`) offers two ways to supply the photos: a guided
camera mode that walks through a fixed list of nine shots, and one file input per shot.
Both end up in the same per-shot file inputs, which check every file (at most 10 MiB,
type `image/…`). A readiness check gates the submit button and the submit handler.
The server (`server.js`) accepts exactly the nine shot fields, one image each of at most
10 MiB. It stores each file under a timestamped name, builds one mail attachment per
received field and maps failures to HTTP statuses.

The project models this core:

- `text.dfy` (`Text`): JavaScript's `\s` character class, `trim`, `startsWith`, and the
  decimal text of a number, with a parse-back round trip.
- `shots.dfy` (`Shots`): the ordered list of nine shots (id, title, instruction) and the
  distinctness of the ids.
- `file_acceptance.dfy` (`FileAcceptance`): the file input's check. The size is tested
  first, then the type. The module also gives the status text.
- `contact_format.dfy` (`ContactFormat`): the phone formatter and the email shape test.
  The email test is proved equal to the regular expression `^[^\s@]+@[^\s@]+\.[^\s@]+$`
  read as a split into three atoms.
- `form.dfy` (`Form`): the class `UploadForm`. It holds the file inputs (a map from shot id
  to file), the text values, the status lines, the submit button and the email error mark.
  It also holds `validateForm` as a loop, the change handlers and the submit guard.
- `sequencer.dfy` (`Sequencer`): the class `CameraSession`. It holds `currentPhotoIndex`,
  the stream flag, `capturedPhotos`, the screen and the camera screen's text. Its methods
  are the start, capture, next and back handlers and `stopCamera`. A full nine-round walk
  is proved to fill the store with exactly the nine ids.
- `upload_policy.dfy` (`UploadPolicy`): the server's upload configuration. This covers the
  field list, the image filter, the size limit and the stored file name
  (`${timestamp}-${name}` with whitespace runs turned into `_`). It also covers how a
  request's file parts are admitted or refused.
- `submission.dfy` (`Submission`): the attachment and `photosList` loop, the field-name
  humaniser, the error middleware and the submission route.
- `wrappers.dfy` (`Wrappers`): `Option` and `Result`.

Inputs from outside the core are parameters:

- whether the camera request is granted;
- the size of the encoded frame;
- the file the picker delivers;
- the clock reading that names a stored file;
- the mail transport's outcome.

Behaviour of the code worth knowing, which the model keeps as written:

- With exactly six digits the formatter already writes the dash: `555123` becomes `(555) 123-`
  (`public/script.js:381-382`).
- Readiness reads whatever controls carry the `required` attribute. The page markup is not
  part of this model, so `UploadForm` takes the required controls as a parameter.
  `Form.StandardRequired` is the page's assumed required set: the nine shot inputs, then
  email, phone and address.
- A refused camera request still runs `updatePhotoUI` after falling back to the form
  (`public/script.js:43-44`). `Start` models that.
- `capturedPhotos` is never cleared, so a new walk keeps the captures of earlier walks
  until they are overwritten.
- The phone field's `input` listeners run in registration order. The submit-button update
  runs first, on the text as typed, and the formatter then rewrites the value
  (`public/script.js:266-269`, `379-387`). `UploadForm.Input` states both. The `change`
  event brings the button up to date later (`UploadForm.TextChanged`).
- The server refuses a request on its first inadmissible file part. The upload library checks
  the field first, then the image filter, then the size. So an oversized image gets the
  400 answer, while an oversized file of another type gets the filter's error and a 500
  (`server.js:35-47`, `145-151`).
- `photosList` is built but not used in the mail (`server.js:81-89`).

## Model

| member | source | states |
|---|---|---|
| `Shots.Ids` | public/script.js:22-32 | the nine shot ids in walk order, the i-th being the id of the i-th shot |
| `Shots.IdsDistinct` | public/script.js:22-32 | no two shots share an id |
| `Shots.IdSetSize` | public/script.js:22-32 | the shot ids form a set of exactly nine |
| `Text.Trim` | public/script.js:242 | the trimmed value is no longer than the value, has no whitespace at either end, and is empty exactly when every character of the value is whitespace |
| `Text.NatToDecimal` | server.js:29-31 | the decimal text of a number is non-empty, all digits, and has no leading zero |
| `Text.DecimalRoundTrip` | server.js:29-31 | the decimal text of a number reads back as that number |
| `FileAcceptance.Check` | public/script.js:163-178 | accepted iff size ≤ 10·1024·1024 and the type starts with `image/`; too large iff the size is over the limit, whatever the type; not an image iff the size is within the limit and the type is wrong |
| `FileAcceptance.StatusText` | public/script.js:163-183 | the status shows "File too large (max 10MB)", "Please select an image file", or a check mark and the file name, according to the verdict |
| `FileAcceptance.SizeBoundary` | public/script.js:165 | an image of exactly 10 MiB is accepted and one byte more is refused as too large |
| `FileAcceptance.TypeExamples` | public/script.js:173 | `text/plain` is refused at every size; a 1 KiB `image/png` is accepted |
| `FileAcceptance.CaptureTypeAccepted` | public/script.js:106-121 | a captured `image/jpeg` is accepted exactly when it is within the size limit |
| `ContactFormat.Digits` | public/script.js:380 | the result holds only ASCII digits and is no longer than the input |
| `ContactFormat.FormatPhone` | public/script.js:379-387 | the digits of the formatted phone are the first min(n,10) input digits when n ≥ 6, and all n digits otherwise; the value never exceeds 14 characters |
| `ContactFormat.FormatPhoneIdempotent` | public/script.js:379-387 | formatting the formatted value again changes nothing |
| `ContactFormat.FormatPhoneTenDigits` | public/script.js:381-382 | ten bare digits become `(ddd) ddd-dddd` |
| `ContactFormat.FormatPhoneFullNumber` | public/script.js:381-382 | `5551234567` becomes `(555) 123-4567` |
| `ContactFormat.FormatPhoneSixDigits` | public/script.js:381-382 | six digits `555123` become `(555) 123-`, with the trailing dash |
| `ContactFormat.FormatPhonePartial` | public/script.js:383-384 | five digits typed as `(555) 12` stay `(555) 12` |
| `ContactFormat.IsEmailShaped` | public/script.js:393-395 | a string that passes has at least five characters and exactly one `@` |
| `ContactFormat.EmailShapeMatchesPattern` | public/script.js:393 | the computed test holds exactly when the string splits as atom `@` atom `.` atom, each atom non-empty without whitespace or `@` |
| `ContactFormat.EmailFlagged` | public/script.js:391-401 | the email field is marked invalid iff it is non-empty and does not match the pattern |
| `ContactFormat.EmailExamples` | public/script.js:393-395 | `a@b.com` and the empty value are not marked; `a@b` and `a b@c.d` are |
| `Form.ReadyWhenNothingRequired` | public/script.js:232-249 | with no required controls the form is ready |
| `Form.ClearingAFileBlocks` | public/script.js:237-240 | emptying any required file input makes the form not ready |
| `Form.BlankingAFieldBlocks` | public/script.js:241-244 | blanking any required text field, or filling it with whitespace only, makes the form not ready |
| `Form.StandardReadyIff` | public/script.js:232-249 | with the page's required controls, ready iff all nine shot ids have a file and email, phone and address each hold a non-whitespace character |
| `Form.UploadForm.constructor` | public/script.js:271-272 | a fresh page has nothing chosen or typed, and the button is enabled only when nothing is required |
| `Form.UploadForm.ValidateForm` | public/script.js:232-249 | the loop returns true exactly when every required control is satisfied |
| `Form.UploadForm.UpdateSubmitButton` | public/script.js:251-262 | the button is enabled exactly when the form is ready |
| `Form.UploadForm.Select` | public/script.js:157-229 | an accepted file replaces the input's previous file; a refused or absent file empties that input; only that card's status changes; the button then reflects readiness |
| `Form.UploadForm.Input` | public/script.js:264-269 | the value is stored (formatted when it is the phone field) and the button reflects readiness of the value as typed |
| `Form.UploadForm.TextChanged` | public/script.js:268 | after a text control's change event the button reflects readiness |
| `Form.UploadForm.EmailBlurred` | public/script.js:389-402 | on blur the email field is marked exactly when its value is flagged |
| `Form.UploadForm.Submit` | public/script.js:275-294 | submission is blocked, with nothing sent, exactly when the form is not ready; otherwise it posts the current files and values |
| `Sequencer.PhotoCount` | public/script.js:89 | the counter is the 1-based position as one digit followed by " of 9" |
| `Sequencer.ConfirmLabel` | public/script.js:131 | the confirm label is "Finish" exactly on the last shot and "Next Photo →" before it |
| `Sequencer.CaptureFile` | public/script.js:106-108 | a captured frame is a file of the frame's size that the page's check accepts exactly when it is within 10 MiB |
| `Sequencer.RoundKeepsEarlier` | public/script.js:107-121 | recording shot k's capture in the store, the shot's input and its status line keeps the records of the earlier shots, the ids being distinct |
| `Sequencer.CameraSession.constructor` | public/script.js:34-36 | the session starts at shot 0 with no stream and no captures, on the form screen |
| `Sequencer.CameraSession.StopCamera` | public/script.js:77-83 | afterwards no stream is held; without a stream the call changes nothing |
| `Sequencer.CameraSession.BackToForm` | public/script.js:47-52 | the stream is released and the form is shown |
| `Sequencer.CameraSession.UpdatePhotoUI` | public/script.js:86-97 | the screen shows the current shot's title, instruction and counter, with the capture button |
| `Sequencer.CameraSession.Start` | public/script.js:38-74 | the cursor is reset to 0 and shot 0 is shown; a stream is held iff the request was granted; a refusal returns to the form; captures are kept |
| `Sequencer.CameraSession.Capture` | public/script.js:99-133 | the current shot's entry is overwritten with a JPEG named `<id>.jpg` and other ids are unchanged; the shot's input holds it iff it is within 10 MiB, and is emptied otherwise; the shot's status line shows the check's text; the button reflects readiness; the label follows the cursor |
| `Sequencer.CameraSession.Next` | public/script.js:135-152 | the cursor advances by one and the next shot is shown before the last shot; on the last shot the cursor and the camera screen's text stay, the stream is released and the form is shown; it never decreases |
| `Sequencer.CameraSession.CaptureAndConfirm` | public/script.js:99-152 | one capture-and-confirm round stores shot k's capture, puts it in the shot's input (or empties the input when it is too large), sets its status line, leaves the contact values alone, keeps the earlier shots' records and the button in step with readiness; it then shows shot k+1, or after the last shot releases the camera |
| `Sequencer.CameraSession.CompleteWalk` | public/script.js:22-152 | after start and nine rounds the capture store's keys are exactly the nine ids; each shot's input holds its capture unless it was too large, and its status line describes it; other inputs, other status lines and the contact values are unchanged; the cursor is on the last shot, the camera is released and the form is shown; the button reflects readiness, and with the page's required controls and every frame within 10 MiB the form is ready exactly when email, phone and address are filled |
| `UploadPolicy.CollapseWhitespace` | server.js:30 | the result holds no whitespace and is no longer than the original name |
| `UploadPolicy.CollapseRun` | server.js:30 | a whole whitespace run followed by a non-whitespace character becomes a single `_` |
| `UploadPolicy.CollapseKeepsPlainName` | server.js:30 | a name without whitespace is kept as it is |
| `UploadPolicy.CollapseIdempotent` | server.js:30 | collapsing twice equals collapsing once |
| `UploadPolicy.StoredFilename` | server.js:28-32 | the stored name parses back into the timestamp and the collapsed original name, and holds no whitespace |
| `UploadPolicy.UploadFieldsAreShots` | server.js:64-74 | the server's fields are the page's nine shot ids in the same order, each with at most one file |
| `UploadPolicy.ServerLimitMatchesPage` | server.js:38 | the server's 10 MiB limit equals the page's |
| `UploadPolicy.UploadFieldNamesPlain` | server.js:64-74 | no accepted field name contains whitespace |
| `UploadPolicy.FileFilter` | server.js:40-46 | a part passes the filter iff its type starts with `image/`; otherwise the error is "Only image files are allowed!" |
| `UploadPolicy.Admit` | server.js:35-74 | a part is admitted iff its field is listed and not yet filled, it is an image and its size is at most 10 MiB; it gets the unexpected-field error iff its field is unlisted or already filled, the filter's error iff the field is fine but the type is not an image, and the size error iff it is an image of an open field over 10 MiB |
| `UploadPolicy.Store` | server.js:24-32 | a stored upload keeps its field and gets the timestamped collapsed name |
| `UploadPolicy.ReceiveAfter` | server.js:64-74 | a request succeeds iff each part is admitted after its predecessors, storing every part in order; otherwise it fails with the objection to the first part refused |
| `UploadPolicy.Receive` | server.js:64-74 | the whole request is stored part by part in arrival order iff every part is admitted, and otherwise fails with the objection to the first part refused |
| `UploadPolicy.FirstRefusedUnique` | server.js:35-74 | a request has only one first refused part |
| `UploadPolicy.ReceiveSucceedsIff` | server.js:35-74 | a request succeeds iff every part is for a listed field not used by an earlier part, is an image and is within 10 MiB |
| `UploadPolicy.SizeErrorIffOversizedImage` | server.js:35-47 | a request with a first refused part fails; the failure is `LIMIT_FILE_SIZE` exactly when that part is an image of a listed, unused field over 10 MiB; a non-image there gets the filter's error whatever its size |
| `UploadPolicy.ReceivedUploadsPlain` | server.js:28-32 | accepted uploads have distinct listed fields and whitespace-free stored names |
| `Submission.Humanise` | server.js:113 | the humanised name has no upper-case ASCII letter and is one character longer per capital |
| `Submission.HumaniseRoundTrip` | server.js:113 | a name without spaces is recovered from its humanised form |
| `Submission.HumaniseCamelWords` | server.js:113 | a lower-case word followed by two capitalised words reads as the three words in lower case, separated by spaces |
| `Submission.HumaniseExample` | server.js:113 | `frontRightCorner` becomes `front right corner` |
| `Submission.AttachmentFor` | server.js:84-87 | an attachment's name reads back as the field, a dash and the stored name, and it is read from the stored path |
| `Submission.PhotoLine` | server.js:88 | a `photosList` line ends in a line break, and with whitespace-free names holds no other |
| `Submission.BuildAttachments` | server.js:80-90 | one attachment `<field>-<filename>` per received field, in key order, and `photosList` is the matching lines in the same order |
| `Submission.PhotosList` | server.js:80-89 | the list is empty exactly when there are no uploads, and otherwise ends in a line break |
| `Submission.PhotosListLineCount` | server.js:83-90 | with field and stored names free of whitespace, `photosList` has exactly one line per upload |
| `Submission.OneLinePerPart` | server.js:80-90 | every accepted request yields one `photosList` line per file part |
| `Submission.ErrorResponse` | server.js:144-152 | a `LIMIT_FILE_SIZE` error gives 400; every other error gives 500 with its own message; neither reports success |
| `Submission.RefusalStatus` | server.js:145-151 | a refused request is answered 400 exactly when its first refused part is an image of a listed, unused field over 10 MiB; a non-image there is answered 500 with the filter's message |
| `Submission.HandleSubmission` | server.js:74-142 | success iff the upload was accepted and the mail delivered; a refused request gets the error handler's answer, 400 exactly for the size error; a mail is built iff the upload was accepted, addressed to the fixed recipient with the address in its subject and one attachment and one humanised name per part |

## Left out

- Camera acquisition (`getUserMedia`) is reduced to the `granted` flag of `Start`. Canvas drawing and JPEG encoding at quality 0.9 are reduced to the frame size passed to `Capture`: browser media APIs and floating-point image work.
- The asynchrony of `toBlob` is not modelled. `Capture` runs at once, on the cursor as it is when the button is pressed.
- DOM styling is left out: display toggles, opacity, cursor, colours, previews through `FileReader`, scrolling, the `IntersectionObserver` animations. Only the state these handlers read back is kept: screen, button labels, counter, status text, button enabled, email mark.
- The confetti effect is left out: it uses `Math.random` and timers.
- `fetch`, the JSON response, the alerts and the loading state of the submit button are left out: network I/O and UI. Only the guard that a form that is not ready sends nothing is modelled.
- The page markup (`index.html`) is not part of this model. The required controls are a parameter, and `Form.StandardRequired` is the page's assumed required set.
- Express routing, multipart parsing (done inside the upload library), disk writes, the mail transport and the HTML mail template are left out: foreign libraries and I/O. The mail keeps its recipient, subject, attachments and the humanised names it lists.
- The upload library's handling is modelled as its documented configuration: unlisted or repeated field, then the filter, then the size limit. The library's source is not part of this model. Its other behaviours, such as skipping parts without a file name and the other limits, are left out.
- File cleanup after five seconds, `Date.now()` and `app.listen` are left out: timers, file system and clock. The timestamp is a parameter of each file part.
- Submission.Humanise: `toLowerCase` is modelled on ASCII letters only. Field names are ASCII, so the listed names are unaffected. Non-ASCII capitals in other input would be lowered by JavaScript but not by the model.
- Submission.HandleSubmission: `photosList` is built and dropped, as in the source. The mail's HTML body is represented only by the list of humanised names.
