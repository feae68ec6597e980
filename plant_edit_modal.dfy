/** The dialog that edits a plant's name and emoji: whitespace trimming,
    the two-stage validation of Save, the inline field errors, and the
    outcome of the PUT. */
module PlantEditModal {
  import opened Common

  /** The plant handed to the dialog; its name and emoji may be missing. */
  datatype Plant = Plant(id: int, name: Option<string>, emoji: Option<string>)

  /** The form's contents (`editData`). */
  datatype EditData = EditData(name: string, emoji: string)

  /** What Save hands to the parent and the backend. */
  datatype SaveRequest = SaveRequest(plantId: int, body: EditData)

  const MsgNameRequired: string := "Plant name is required"
  const MsgEmojiRequired: string := "Plant emoji is required"
  const MsgUpdateFailed: string := "Failed to update plant"
  const MsgUpdateError: string := "Error updating plant"

  // ---------------------------------------------------------------------
  // String.prototype.trim

  /** The characters `trim` removes: the white space and line terminator
      code points of the ECMAScript standard. */
  predicate IsWhitespace(c: char) {
    || '\t' <= c <= '\r'   // tab, line feed, vertical tab, form feed, carriage return
    || c == ' ' || c == '\U{00A0}' || c == '\U{1680}'
    || '\U{2000}' <= c <= '\U{200A}'
    || c == '\U{2028}' || c == '\U{2029}' || c == '\U{202F}' || c == '\U{205F}'
    || c == '\U{3000}' || c == '\U{FEFF}'
  }

  predicate AllWhitespace(s: string) {
    forall k :: 0 <= k < |s| ==> IsWhitespace(s[k])
  }

  /** Where the text of `s` starts, looking from `i`: the first index at
      or after `i` that is not white space, or `|s|` if there is none. */
  function SkipStart(s: string, i: nat): (k: nat)
    requires i <= |s|
    ensures i <= k <= |s|
    ensures forall m :: i <= m < k ==> IsWhitespace(s[m])
    ensures k < |s| ==> !IsWhitespace(s[k])
    decreases |s| - i
  {
    if i < |s| && IsWhitespace(s[i]) then SkipStart(s, i + 1) else i
  }

  /** Where the text of `s` ends, looking back from `j` but not past `lo`:
      the index just after the last non-space before `j`, or `lo`. */
  function SkipEnd(s: string, lo: nat, j: nat): (k: nat)
    requires lo <= j <= |s|
    ensures lo <= k <= j
    ensures forall m :: k <= m < j ==> IsWhitespace(s[m])
    ensures k > lo ==> !IsWhitespace(s[k - 1])
    decreases j
  {
    if j > lo && IsWhitespace(s[j - 1]) then SkipEnd(s, lo, j - 1) else j
  }

  /** `s.trim()`: `s` without its leading and trailing white space. */
  function Trim(s: string): string {
    var i := SkipStart(s, 0);
    s[i..SkipEnd(s, i, |s|)]
  }

  /** `s.trim()` is the slice of `s` between its leading and trailing white
      space, and neither starts nor ends with white space. */
  lemma TrimIsSlice(s: string)
    ensures exists i, j :: 0 <= i <= j <= |s| && Trim(s) == s[i..j]
                           && AllWhitespace(s[..i]) && AllWhitespace(s[j..])
    ensures var r := Trim(s); r != [] ==> !IsWhitespace(r[0]) && !IsWhitespace(r[|r| - 1])
  {
    var i := SkipStart(s, 0);
    var j := SkipEnd(s, i, |s|);
    assert AllWhitespace(s[..i]) by {
      forall k | 0 <= k < i ensures IsWhitespace(s[..i][k]) { assert s[..i][k] == s[k]; }
    }
    assert AllWhitespace(s[j..]) by {
      forall k | 0 <= k < |s| - j ensures IsWhitespace(s[j..][k]) { assert s[j..][k] == s[j + k]; }
    }
  }

  /** Trimming gives the empty string exactly for all-white-space input. */
  lemma TrimEmptyIffAllWhitespace(s: string)
    ensures Trim(s) == "" <==> AllWhitespace(s)
  {
  }

  /** Trimming twice is trimming once. */
  lemma TrimIdempotent(s: string)
    ensures Trim(Trim(s)) == Trim(s)
  {
  }

  // ---------------------------------------------------------------------
  // Validation

  /** `isValid`: a non-blank name and an emoji. */
  predicate IsValid(d: EditData) {
    Trim(d.name) != "" && d.emoji != ""
  }

  /** The checks at the top of `handleSave`, in order: the name first,
      then the emoji. None means the request goes out. */
  function SaveCheck(d: EditData): Option<string> {
    if Trim(d.name) == "" then Some(MsgNameRequired)
    else if d.emoji == "" then Some(MsgEmojiRequired)
    else None
  }

  /** The name is refused exactly when it is all white space, the emoji
      exactly when the name is fine and no emoji was chosen, and nothing
      is refused exactly when the form is valid. */
  lemma SaveCheckMessages(d: EditData)
    ensures SaveCheck(d) == Some(MsgNameRequired) <==> AllWhitespace(d.name)
    ensures SaveCheck(d) == Some(MsgEmojiRequired) <==> !AllWhitespace(d.name) && d.emoji == ""
    ensures SaveCheck(d).None? <==> IsValid(d)
  {
    TrimEmptyIffAllWhitespace(d.name);
  }

  /** The Save button is enabled exactly when the form passes Save's
      checks and no save is in flight. */
  predicate SaveEnabled(d: EditData, loading: bool) {
    IsValid(d) && !loading
  }

  lemma SaveEnabledIffChecksPass(d: EditData, loading: bool)
    ensures SaveEnabled(d, loading) <==> SaveCheck(d).None? && !loading
  {
  }

  /** The name field's inline error: typed, but blank after trimming. */
  predicate NameError(d: EditData) {
    Trim(d.name) == "" && d.name != ""
  }

  lemma NameErrorIffBlank(d: EditData)
    ensures NameError(d) <==> d.name != "" && AllWhitespace(d.name)
    ensures NameError(d) ==> SaveCheck(d) == Some(MsgNameRequired)
  {
    TrimEmptyIffAllWhitespace(d.name);
  }

  /** The emoji field's inline error: nothing chosen. */
  predicate EmojiError(d: EditData) {
    d.emoji == ""
  }

  /** An emoji error blocks Save, but is reported by Save only when the
      name is fine. */
  lemma EmojiErrorBlocksSave(d: EditData)
    ensures EmojiError(d) ==> SaveCheck(d).Some?
    ensures EmojiError(d) && !AllWhitespace(d.name) ==> SaveCheck(d) == Some(MsgEmojiRequired)
  {
  }

  /** The body of the PUT: the trimmed name and the emoji as chosen. */
  function RequestBody(d: EditData): EditData {
    EditData(Trim(d.name), d.emoji)
  }

  /** The body keeps the emoji and sends a slice of the typed name with
      only white space cut off either end; for a valid form that slice is
      non-empty and starts and ends with a non-space. */
  lemma RequestBodyIsTrimmed(d: EditData)
    ensures RequestBody(d).emoji == d.emoji
    ensures exists i, j :: 0 <= i <= j <= |d.name| && RequestBody(d).name == d.name[i..j]
                           && AllWhitespace(d.name[..i]) && AllWhitespace(d.name[j..])
    ensures IsValid(d) ==> var n := RequestBody(d).name;
              n != "" && !IsWhitespace(n[0]) && !IsWhitespace(n[|n| - 1])
  {
    TrimIsSlice(d.name);
  }

  /** The form a plant starts the dialog with: `plant.name || ''` and
      `plant.emoji || ''`. */
  function FormOf(p: Plant): EditData {
    EditData(match p.name case Some(n) => n case None => "", match p.emoji case Some(e) => e case None => "")
  }

  // ---------------------------------------------------------------------
  // The dialog

  class EditModal {
    var plant: Option<Plant>
    var editData: EditData
    var loading: bool
    var error: Option<string>

    constructor (initial: Option<Plant>)
      ensures plant == initial && !loading && error == None
      ensures editData == if initial.Some? then FormOf(initial.value) else EditData("", "")
    {
      plant := initial;
      loading := false;
      error := None;
      editData := if initial.Some? then FormOf(initial.value) else EditData("", "");
    }

    /** The effect on `[plant]`: a new plant resets the form to that
        plant's name and emoji and clears the error; a null plant leaves
        the form as it was. */
    method PlantChanged(p: Option<Plant>)
      modifies this`plant, this`editData, this`error
      ensures plant == p
      ensures p.Some? ==> editData == FormOf(p.value) && error == None
      ensures p.None? ==> editData == old(editData) && error == old(error)
    {
      plant := p;
      if p.Some? {
        editData := FormOf(p.value);
        error := None;
      }
    }

    method SetName(name: string)
      modifies this`editData
      ensures editData == old(editData).(name := name)
    {
      editData := editData.(name := name);
    }

    /** The emoji picker's `onChange`: a cleared picker gives ''. */
    method SetEmoji(value: Option<string>)
      modifies this`editData
      ensures editData == old(editData).(emoji := if value.Some? then value.value else "")
    {
      editData := editData.(emoji := match value case Some(v) => v case None => "");
    }

    /** `handleSave`. A form that fails a check sets that check's message
        and sends nothing. Otherwise the trimmed form is PUT (when there is
        no plant, reading its id throws inside the `try`); only an ok
        response calls `onUpdate` and `onClose`, any failure sets an error,
        and loading ends false. */
    method HandleSave(response: Response)
      returns (request: Option<SaveRequest>, updateCalled: bool, closeCalled: bool)
      modifies this`loading, this`error
      ensures SaveCheck(old(editData)).Some? ==>
                request == None && !updateCalled && !closeCalled
                && error == SaveCheck(old(editData)) && loading == old(loading)
      ensures SaveCheck(old(editData)).None? ==> !loading
      ensures SaveCheck(old(editData)).None? && plant.None? ==>
                request == None && !updateCalled && !closeCalled && error == Some(MsgUpdateError)
      ensures SaveCheck(old(editData)).None? && plant.Some? ==>
                request == Some(SaveRequest(plant.value.id, RequestBody(editData)))
                && (updateCalled <==> response == Ok) && (closeCalled <==> response == Ok)
                && error == (match response
                             case Ok => None
                             case NotOk => Some(MsgUpdateFailed)
                             case Threw => Some(MsgUpdateError))
    {
      request, updateCalled, closeCalled := None, false, false;
      var check := SaveCheck(editData);
      if check.Some? {
        error := check;
        return;
      }
      loading := true;
      error := None;
      if plant.None? {
        error := Some(MsgUpdateError);
      } else {
        request := Some(SaveRequest(plant.value.id, RequestBody(editData)));
        match response {
          case Ok =>
            updateCalled := true;
            closeCalled := true;
          case NotOk =>
            error := Some(MsgUpdateFailed);
          case Threw =>
            error := Some(MsgUpdateError);
        }
      }
      loading := false;
    }

    /** `handleClose`: clears the error and closes. */
    method HandleClose() returns (closeCalled: bool)
      modifies this`error
      ensures error == None && closeCalled
    {
      error := None;
      closeCalled := true;
    }
  }
}
