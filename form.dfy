/**
 * The upload form on the page: one file input per shot, the contact text fields,
 * the readiness check behind the submit button and the guard in the submit handler.
 * Picker selections and camera captures both arrive through `Select`, the file
 * input's change handler, so the per-shot store does not depend on where a file came from.
 */
module Form {
  import opened Wrappers
  import opened Text
  import opened Shots
  import opened FileAcceptance
  import opened ContactFormat

  /** A control marked `required` in the form. */
  datatype Control = FileInput(id: string) | TextInput(name: string)

  const EmailField: string := "email"
  const PhoneField: string := "phone"
  const AddressField: string := "address"

  /** The value of a text control; a control never typed into is empty. */
  function ValueOf(values: map<string, string>, name: string): string {
    if name in values then values[name] else ""
  }

  /** One required control is satisfied: a file is chosen, or the text is non-empty after trimming. */
  predicate Satisfied(c: Control, files: map<string, File>, values: map<string, string>) {
    match c
    case FileInput(id) => id in files
    case TextInput(name) => Trim(ValueOf(values, name)) != []
  }

  /** Readiness: every required control is satisfied. */
  predicate Ready(required: seq<Control>, files: map<string, File>, values: map<string, string>) {
    forall i :: 0 <= i < |required| ==> Satisfied(required[i], files, values)
  }

  /** The required controls of the deployed page: the nine shot inputs, then email, phone and address. */
  function StandardRequired(): (rs: seq<Control>)
    ensures |rs| == 12
    ensures forall i :: 0 <= i < 9 ==> rs[i] == FileInput(Sequence[i].id)
    ensures rs[9..] == [TextInput(EmailField), TextInput(PhoneField), TextInput(AddressField)]
  {
    seq(9, i requires 0 <= i < 9 => FileInput(Sequence[i].id))
      + [TextInput(EmailField), TextInput(PhoneField), TextInput(AddressField)]
  }

  /** With no required controls the form is ready. */
  lemma ReadyWhenNothingRequired(files: map<string, File>, values: map<string, string>)
    ensures Ready([], files, values)
  {
  }

  /** Clearing any one required file input makes a ready form not ready. */
  lemma ClearingAFileBlocks(required: seq<Control>, files: map<string, File>, values: map<string, string>, k: nat)
    requires k < |required| && required[k].FileInput?
    ensures !Ready(required, files - {required[k].id}, values)
  {
    assert !Satisfied(required[k], files - {required[k].id}, values);
  }

  /** Blanking any one required text field (or filling it with spaces only) makes the form not ready. */
  lemma BlankingAFieldBlocks(required: seq<Control>, files: map<string, File>, values: map<string, string>,
                             k: nat, blank: string)
    requires k < |required| && required[k].TextInput? && AllWhitespace(blank)
    ensures !Ready(required, files, values[required[k].name := blank])
  {
    assert ValueOf(values[required[k].name := blank], required[k].name) == blank;
    assert !Satisfied(required[k], files, values[required[k].name := blank]);
  }

  /** Readiness over a concatenation of required lists is readiness of both parts. */
  lemma ReadyAppend(a: seq<Control>, b: seq<Control>, files: map<string, File>, values: map<string, string>)
    ensures Ready(a + b, files, values) <==> Ready(a, files, values) && Ready(b, files, values)
  {
    if Ready(a, files, values) && Ready(b, files, values) {
      forall i | 0 <= i < |a + b| ensures Satisfied((a + b)[i], files, values) {
        if i >= |a| { assert (a + b)[i] == b[i - |a|]; }
      }
    }
    if Ready(a + b, files, values) {
      forall i | 0 <= i < |a| ensures Satisfied(a[i], files, values) {
        assert (a + b)[i] == a[i];
      }
      forall i | 0 <= i < |b| ensures Satisfied(b[i], files, values) {
        assert (a + b)[|a| + i] == b[i];
      }
    }
  }

  lemma ShotInputsReadyIff(files: map<string, File>, values: map<string, string>)
    ensures Ready(StandardRequired()[..9], files, values) <==> (forall i :: 0 <= i < |Sequence| ==> Sequence[i].id in files)
  {
    var shots := StandardRequired()[..9];
    assert forall i :: 0 <= i < 9 ==> shots[i] == FileInput(Sequence[i].id);
  }

  lemma TextSatisfiedIff(name: string, files: map<string, File>, values: map<string, string>)
    ensures Satisfied(TextInput(name), files, values) <==> !AllWhitespace(ValueOf(values, name))
  {
  }

  lemma ContactFieldsReadyIff(files: map<string, File>, values: map<string, string>)
    ensures Ready([TextInput(EmailField), TextInput(PhoneField), TextInput(AddressField)], files, values) <==>
      && !AllWhitespace(ValueOf(values, EmailField))
      && !AllWhitespace(ValueOf(values, PhoneField))
      && !AllWhitespace(ValueOf(values, AddressField))
  {
    var texts := [TextInput(EmailField), TextInput(PhoneField), TextInput(AddressField)];
    TextSatisfiedIff(EmailField, files, values);
    TextSatisfiedIff(PhoneField, files, values);
    TextSatisfiedIff(AddressField, files, values);
    assert Ready(texts, files, values) <==>
      Satisfied(texts[0], files, values) && Satisfied(texts[1], files, values) && Satisfied(texts[2], files, values);
  }

  /** Email, phone and address each hold a non-whitespace character. */
  predicate ContactFilled(values: map<string, string>) {
    && !AllWhitespace(ValueOf(values, EmailField))
    && !AllWhitespace(ValueOf(values, PhoneField))
    && !AllWhitespace(ValueOf(values, AddressField))
  }

  /** For the deployed page: ready exactly when all nine shots have a file and email, phone and address hold text. */
  lemma StandardReadyIff(files: map<string, File>, values: map<string, string>)
    ensures Ready(StandardRequired(), files, values) <==>
      (forall i :: 0 <= i < |Sequence| ==> Sequence[i].id in files) && ContactFilled(values)
  {
    var rs := StandardRequired();
    assert rs == rs[..9] + rs[9..];
    ReadyAppend(rs[..9], rs[9..], files, values);
    ShotInputsReadyIff(files, values);
    ContactFieldsReadyIff(files, values);
  }

  /** What the submit handler does: stop at the alert, or post the form's contents. */
  datatype SubmitAction =
    | Blocked
    | Post(files: map<string, File>, values: map<string, string>)

  class UploadForm {
    /** The controls marked `required`, in document order. */
    const required: seq<Control>
    /** The ids of the file inputs on the page. */
    const fileInputs: set<string>

    /** The file each file input currently holds. */
    var files: map<string, File>
    /** The value of each text control. */
    var values: map<string, string>
    /** The status line of each upload card. */
    var status: map<string, string>
    var submitEnabled: bool
    /** Whether the email field is drawn with the error border. */
    var emailFlagged: bool

    ghost predicate Valid()
      reads this
    {
      && files.Keys <= fileInputs
      && (forall i :: 0 <= i < |required| && required[i].FileInput? ==> required[i].id in fileInputs)
    }

    /** The page as loaded: nothing chosen, nothing typed, then the initial button update. */
    constructor (required: seq<Control>, fileInputs: set<string>)
      requires forall i :: 0 <= i < |required| && required[i].FileInput? ==> required[i].id in fileInputs
      ensures Valid()
      ensures this.required == required && this.fileInputs == fileInputs
      ensures files == map[] && values == map[] && status == map[] && !emailFlagged
      ensures submitEnabled <==> Ready(required, map[], map[])
    {
      this.required := required;
      this.fileInputs := fileInputs;
      files := map[];
      values := map[];
      status := map[];
      emailFlagged := false;
      new;
      UpdateSubmitButton();
    }

    /** `validateForm`: walk the required controls and clear the flag at any unsatisfied one. */
    method ValidateForm() returns (isValid: bool)
      ensures isValid == Ready(required, files, values)
    {
      isValid := true;
      var i := 0;
      while i < |required|
        invariant 0 <= i <= |required|
        invariant isValid == (forall j :: 0 <= j < i ==> Satisfied(required[j], files, values))
      {
        match required[i] {
          case FileInput(id) =>
            if id !in files {
              isValid := false;
            }
          case TextInput(name) =>
            if Trim(ValueOf(values, name)) == [] {
              isValid := false;
            }
        }
        i := i + 1;
      }
    }

    method UpdateSubmitButton()
      modifies this`submitEnabled
      ensures submitEnabled == Ready(required, files, values)
    {
      submitEnabled := ValidateForm();
    }

    /**
     * The change handler of file input `id`, which now holds `chosen`. A file that is too
     * large or not an image is dropped from the input and the card shows why; an accepted
     * file replaces whatever the input held before. The form-wide change listener then
     * updates the submit button.
     */
    method Select(id: string, chosen: Option<File>)
      requires Valid() && id in fileInputs
      modifies this`files, this`status, this`submitEnabled
      ensures Valid()
      ensures chosen.Some? && Check(chosen.value) == Accepted ==> files == old(files)[id := chosen.value]
      ensures !(chosen.Some? && Check(chosen.value) == Accepted) ==> files == old(files) - {id}
      ensures status == old(status)[id := if chosen.Some? then StatusText(chosen.value) else ""]
      ensures submitEnabled == Ready(required, files, values)
    {
      match chosen {
        case Some(f) =>
          files := files[id := f];
          status := status[id := StatusText(f)];
          if Check(f) != Accepted {
            files := files - {id};
          }
        case None =>
          files := files - {id};
          status := status[id := ""];
      }
      UpdateSubmitButton();
    }

    /**
     * The `input` event of text control `name`. The button update runs first, on the text as
     * typed; for the phone field the formatter then rewrites the value.
     */
    method Input(name: string, raw: string)
      modifies this`values, this`submitEnabled
      ensures submitEnabled == Ready(required, files, old(values)[name := raw])
      ensures values == old(values)[name := if name == PhoneField then FormatPhone(raw) else raw]
    {
      values := values[name := raw];
      UpdateSubmitButton();
      if name == PhoneField {
        values := values[name := FormatPhone(raw)];
      }
    }

    /** The `change` event of a text control, when it loses focus after an edit: the button catches up. */
    method TextChanged()
      modifies this`submitEnabled
      ensures submitEnabled == Ready(required, files, values)
    {
      UpdateSubmitButton();
    }

    /** The email field's `blur` handler. */
    method EmailBlurred()
      modifies this`emailFlagged
      ensures emailFlagged == EmailFlagged(ValueOf(values, EmailField))
    {
      var email := ValueOf(values, EmailField);
      emailFlagged := email != [] && !IsEmailShaped(email);
    }

    /** The submit handler's guard: it re-checks readiness and only a ready form reaches the network. */
    method Submit() returns (action: SubmitAction)
      ensures action == Blocked <==> !Ready(required, files, values)
      ensures action.Post? ==> action.files == files && action.values == values
    {
      var ready := ValidateForm();
      if !ready {
        return Blocked;
      }
      return Post(files, values);
    }
  }
}
