/**
 * The link-group form: rows of (button name, URL) with a parallel list of field
 * errors, validated on submit and published as a new `Data.json` entry under a
 * random ten-character id.
 */
module Generate {
  import opened Wrappers
  import JsText
  import opened Remote
  import opened LinkData
  import opened Modal

  /** One row of the form. */
  datatype FormRow = FormRow(buttonName: string, url: string)

  const BlankRow: FormRow := FormRow("", "")

  /** The error messages of one row; `None` is an absent (or `undefined`) field. */
  datatype FieldErrors = FieldErrors(buttonName: Option<string>, url: Option<string>)

  const NoErrors: FieldErrors := FieldErrors(None, None)

  datatype Field = ButtonNameField | UrlField

  const ButtonNameRequired: string := "Button Name is required"
  const UrlRequired: string := "URL is required"

  // ---------------------------------------------------------------- ids

  /**
   * The `characters` of `generateRandomId`, the 62 characters
   * "ABCDEFGHIJKLMNOPQRSTUVWXYZabcdefghijklmnopqrstuvwxyz0123456789",
   * given by their three ranges in that order.
   */
  function AlphabetChar(k: int): (c: char)
    requires 0 <= k < 62
    ensures k < 26 ==> 'A' <= c <= 'Z'
    ensures 26 <= k < 52 ==> 'a' <= c <= 'z'
    ensures 52 <= k ==> '0' <= c <= '9'
  {
    if k < 26 then ('A' as int + k) as char
    else if k < 52 then ('a' as int + (k - 26)) as char
    else ('0' as int + (k - 52)) as char
  }

  function Alphabet(): (s: string)
    ensures |s| == 62 && forall k :: 0 <= k < 62 ==> s[k] == AlphabetChar(k)
  {
    seq(62, AlphabetChar)
  }

  const Characters: string := Alphabet()
  const IdLength: nat := 10

  /** Position of a character in `Characters`, by its range; -1 for any other character. */
  function CharacterIndex(c: char): (k: int)
    ensures -1 <= k < 62
  {
    if 'A' <= c <= 'Z' then c as int - 'A' as int
    else if 'a' <= c <= 'z' then 26 + (c as int - 'a' as int)
    else if '0' <= c <= '9' then 52 + (c as int - '0' as int)
    else -1
  }

  /** `CharacterIndex` inverts `charAt` on the alphabet: every character occurs once. */
  lemma CharacterIndexInverse()
    ensures |Characters| == 62
    ensures forall k :: 0 <= k < |Characters| ==> CharacterIndex(Characters[k]) == k
  {
  }

  /** The id drawn by the picks: `characters.charAt(pick)` for each pick, in order. */
  function IdFrom(picks: seq<nat>): (id: string)
    requires forall i :: 0 <= i < |picks| ==> picks[i] < |Characters|
    ensures |id| == |picks|
    ensures forall i :: 0 <= i < |id| ==> id[i] in Characters
  {
    seq(|picks|, i requires 0 <= i < |picks| => Characters[picks[i]])
  }

  /** The id determines the picks: two different draws never give the same id. */
  lemma IdFromInjective(p: seq<nat>, q: seq<nat>)
    requires forall i :: 0 <= i < |p| ==> p[i] < |Characters|
    requires forall i :: 0 <= i < |q| ==> q[i] < |Characters|
    requires IdFrom(p) == IdFrom(q)
    ensures p == q
  {
    CharacterIndexInverse();
    assert |p| == |q|;
    forall i | 0 <= i < |p| ensures p[i] == q[i] {
      assert CharacterIndex(IdFrom(p)[i]) == p[i];
      assert CharacterIndex(IdFrom(q)[i]) == q[i];
    }
  }

  /**
   * `generateRandomId`, with `Math.floor(Math.random() * characters.length)` for
   * the i-th character given as `picks[i]`.
   */
  method GenerateRandomId(picks: seq<nat>) returns (id: string)
    requires |picks| == IdLength
    requires forall i :: 0 <= i < |picks| ==> picks[i] < |Characters|
    ensures id == IdFrom(picks)
    ensures |id| == IdLength && forall i :: 0 <= i < |id| ==> id[i] in Characters
  {
    id := "";
    for i := 0 to IdLength
      invariant id == IdFrom(picks[..i])
    {
      id := id + [Characters[picks[i]]];
    }
    assert picks[..IdLength] == picks;
  }

  // ---------------------------------------------------------------- validation

  /** `!value.trim()`. */
  predicate Missing(value: string) {
    JsText.IsBlank(value)
  }

  predicate RowInvalid(row: FormRow) {
    Missing(row.buttonName) || Missing(row.url)
  }

  predicate AnyInvalid(forms: seq<FormRow>) {
    exists i :: 0 <= i < |forms| && RowInvalid(forms[i])
  }

  /** `errs` reports, row by row, exactly the fields left blank, with their messages. */
  predicate ReportsBlanks(forms: seq<FormRow>, errs: seq<FieldErrors>) {
    && |errs| == |forms|
    && (forall i :: 0 <= i < |forms| ==>
          errs[i].buttonName == (if Missing(forms[i].buttonName) then Some(ButtonNameRequired) else None))
    && (forall i :: 0 <= i < |forms| ==>
          errs[i].url == (if Missing(forms[i].url) then Some(UrlRequired) else None))
  }

  /** The error record validation gives one row. */
  function ErrorsFor(row: FormRow): (e: FieldErrors)
    ensures e.buttonName.Some? <==> Missing(row.buttonName)
    ensures e.url.Some? <==> Missing(row.url)
    ensures e == NoErrors <==> !RowInvalid(row)
  {
    FieldErrors(if Missing(row.buttonName) then Some(ButtonNameRequired) else None,
                if Missing(row.url) then Some(UrlRequired) else None)
  }

  /** The validation pass of `handleSubmit`: one error record per row, and whether any was set. */
  method Validate(forms: seq<FormRow>) returns (newErrors: seq<FieldErrors>, hasError: bool)
    ensures ReportsBlanks(forms, newErrors)
    ensures hasError <==> AnyInvalid(forms)
  {
    newErrors := seq(|forms|, _ => NoErrors);
    hasError := false;
    for i := 0 to |forms|
      invariant |newErrors| == |forms|
      invariant forall j :: 0 <= j < i ==> newErrors[j] == ErrorsFor(forms[j])
      invariant hasError <==> exists j :: 0 <= j < i && RowInvalid(forms[j])
    {
      var e := NoErrors;
      if JsText.Trim(forms[i].buttonName) == "" {
        e := e.(buttonName := Some(ButtonNameRequired));
        hasError := true;
      }
      if JsText.Trim(forms[i].url) == "" {
        e := e.(url := Some(UrlRequired));
        hasError := true;
      }
      assert e == ErrorsFor(forms[i]);
      newErrors := newErrors[i := e];
    }
  }

  // ---------------------------------------------------------------- the new entry

  /** `forms.map(form => ({ buttonName: form.buttonName, url: form.url }))`. */
  function ButtonsOf(forms: seq<FormRow>): (buttons: seq<LinkButton>)
    ensures |buttons| == |forms|
  {
    seq(|forms|, i requires 0 <= i < |forms| => LinkButton(forms[i].buttonName, forms[i].url))
  }

  /** The form rows a list of buttons was made from. */
  function FormsOf(buttons: seq<LinkButton>): (forms: seq<FormRow>)
    ensures |forms| == |buttons|
  {
    seq(|buttons|, i requires 0 <= i < |buttons| => FormRow(buttons[i].buttonName, buttons[i].url))
  }

  /** The entry keeps every row's name and URL exactly as typed, untrimmed, in order. */
  lemma ButtonsKeepForms(forms: seq<FormRow>)
    ensures FormsOf(ButtonsOf(forms)) == forms
  {
  }

  function NewEntry(id: string, forms: seq<FormRow>): Entry {
    Entry(id, ButtonsOf(forms))
  }

  // ---------------------------------------------------------------- Data.json

  const DataJsonPrefix: string := "Error fetching Data.json: "

  /** `fetchDataJson`: a missing file is an empty list, a single JSON value a one-entry list. */
  function LoadDataJson(response: Response<Json<Entry>>): (r: Result<seq<Entry>>)
    ensures response.NotOk? && response.status == 404 ==> r == Success([])
    ensures response.Ok? ==> r == Success(AsList(response.body))
    ensures response.NotOk? && response.status != 404 ==> r == Failure(DataJsonPrefix + "Failed to fetch Data.json")
    ensures response.Rejected? ==> r == Failure(DataJsonPrefix + response.message)
  {
    var inner := match response
      case NotOk(status) => if status != 404 then Failure("Failed to fetch Data.json") else Success([])
      case Rejected(m) => Failure(m)
      case Ok(content) => Success(AsList(content));
    Rethrow(DataJsonPrefix, inner)
  }

  /** The `sha` read before the PUT: absent when the read is refused; a rejected read throws. */
  function ShaOf(response: Response<string>): Result<Option<string>> {
    match response
    case Ok(sha) => Success(Some(sha))
    case NotOk(_) => Success(None)
    case Rejected(m) => Failure(m)
  }

  const PushPrefix: string := "Error pushing Data.json: "

  /** `pushDataJson`. */
  function PushResult(response: Response<()>): (r: Result<()>)
    ensures r.Success? <==> response.Ok?
    ensures response.NotOk? ==> r.error == PushPrefix + "Failed to update Data.json"
    ensures response.Rejected? ==> r.error == PushPrefix + response.message
  {
    var inner := match response
      case Ok(_) => Success(())
      case NotOk(_) => Failure("Failed to update Data.json")
      case Rejected(m) => Failure(m);
    Rethrow(PushPrefix, inner)
  }

  /** The body of the PUT: the whole new `Data.json` and the `sha` it replaces. */
  datatype PushRequest = PushRequest(data: seq<Entry>, sha: Option<string>)

  /** The reads before the PUT: token, existing entries, `sha`; the first failure stops them. */
  function PrepareUpdate(tokenResponse: Response<string>, dataResponse: Response<Json<Entry>>,
                         shaResponse: Response<string>, entry: Entry): Result<PushRequest>
  {
    match TokenResult(tokenResponse)
    case Failure(e) => Failure(e)
    case Success(_) =>
      match LoadDataJson(dataResponse)
      case Failure(e) => Failure(e)
      case Success(existing) =>
        match ShaOf(shaResponse)
        case Failure(e) => Failure(e)
        case Success(sha) => Success(PushRequest(existing + [entry], sha))
  }

  /**
   * The PUT is prepared exactly when the token, the existing data and the `sha`
   * read all succeed, and it carries the existing entries unchanged followed by
   * the new one.
   */
  lemma PrepareUpdateAppends(tokenResponse: Response<string>, dataResponse: Response<Json<Entry>>,
                             shaResponse: Response<string>, entry: Entry)
    ensures var r := PrepareUpdate(tokenResponse, dataResponse, shaResponse, entry);
      && (r.Success? <==> tokenResponse.Ok? && LoadDataJson(dataResponse).Success? && !shaResponse.Rejected?)
      && (r.Success? ==> var existing := LoadDataJson(dataResponse).value;
            |r.value.data| == |existing| + 1 && r.value.data[..|existing|] == existing && r.value.data[|existing|] == entry)
      && (r.Success? && dataResponse.NotOk? ==> r.value.data == [entry])
  {
  }

  // ---------------------------------------------------------------- the page

  /** `forms.filter((_, i) => i !== index)`. */
  function RemoveAt<T>(s: seq<T>, index: int): (r: seq<T>)
    ensures 0 <= index < |s| ==> |r| == |s| - 1
    ensures 0 <= index < |s| ==> forall j :: 0 <= j < index ==> r[j] == s[j]
    ensures 0 <= index < |s| ==> forall j :: index <= j < |r| ==> r[j] == s[j + 1]
    ensures !(0 <= index < |s|) ==> r == s
  {
    if 0 <= index < |s| then s[..index] + s[index + 1..] else s
  }

  class GenerateForm {
    var forms: seq<FormRow>
    var errors: seq<FieldErrors>
    var modal: ModalState

    /** The form rows and their error records correspond one to one. */
    predicate Valid()
      reads this
    {
      |forms| == |errors|
    }

    constructor()
      ensures forms == [BlankRow] && errors == [NoErrors] && modal == Closed
      ensures Valid()
    {
      forms, errors, modal := [BlankRow], [NoErrors], Closed;
    }

    /** `addNewForm`: one blank row and one empty error record appended. */
    method AddNewForm()
      modifies this
      ensures forms == old(forms) + [BlankRow] && errors == old(errors) + [NoErrors]
      ensures modal == old(modal)
      ensures old(Valid()) ==> Valid()
    {
      forms := forms + [BlankRow];
      errors := errors + [NoErrors];
    }

    /** `removeForm`: row `index` and its error record removed, the others kept in order. */
    method RemoveForm(index: int)
      modifies this
      ensures forms == RemoveAt(old(forms), index) && errors == RemoveAt(old(errors), index)
      ensures modal == old(modal)
      ensures old(Valid()) ==> Valid()
    {
      forms := RemoveAt(forms, index);
      errors := RemoveAt(errors, index);
    }

    /** `handleInputChange`: one field of one row set, and only that field's error cleared. */
    method HandleInputChange(index: nat, field: Field, value: string)
      requires Valid() && index < |forms|
      modifies this
      ensures |forms| == |old(forms)| && |errors| == |old(errors)| && Valid()
      ensures forall j :: 0 <= j < |forms| && j != index ==> forms[j] == old(forms[j]) && errors[j] == old(errors[j])
      ensures field == ButtonNameField ==>
        && forms[index] == old(forms[index]).(buttonName := value)
        && errors[index] == old(errors[index]).(buttonName := None)
      ensures field == UrlField ==>
        && forms[index] == old(forms[index]).(url := value)
        && errors[index] == old(errors[index]).(url := None)
      ensures modal == old(modal)
    {
      var row, errs := forms[index], errors[index];
      if field == ButtonNameField {
        row := row.(buttonName := value);
        errs := errs.(buttonName := None);
      } else {
        row := row.(url := value);
        errs := errs.(url := None);
      }
      forms := forms[index := row];
      errors := errors[index := errs];
    }

    /**
     * `handleSubmit`, with every network answer and the random picks as inputs.
     * Returns the PUT it sends, if it gets that far.
     */
    method HandleSubmit(tokenResponse: Response<string>, dataResponse: Response<Json<Entry>>, picks: seq<nat>,
                        shaResponse: Response<string>, putResponse: Response<()>)
      returns (request: Option<PushRequest>)
      requires |picks| == IdLength && forall i :: 0 <= i < |picks| ==> picks[i] < |Characters|
      modifies this
      ensures AnyInvalid(old(forms)) ==>
        && ReportsBlanks(old(forms), errors) && forms == old(forms)
        && modal == Show(ErrorModal, FillRequired) && request == None
      ensures !AnyInvalid(old(forms)) ==>
        var prepared := PrepareUpdate(tokenResponse, dataResponse, shaResponse, NewEntry(IdFrom(picks), old(forms)));
        && request == (if prepared.Success? then Some(prepared.value) else None)
        && (prepared.Failure? ==> modal == Show(ErrorModal, "Error: " + prepared.error))
        && (prepared.Success? && !putResponse.Ok? ==> modal == Show(ErrorModal, "Error: " + PushResult(putResponse).error))
        && (prepared.Success? && putResponse.Ok? <==> modal == ModalState(true, SuccessModal, "Data successfully submitted!", Some(IdFrom(picks))))
        && (modal.kind == SuccessModal ==> forms == [BlankRow] && errors == [NoErrors])
        && (modal.kind != SuccessModal ==> forms == old(forms) && errors == seq(|old(forms)|, _ => NoErrors))
    {
      var newErrors, hasError := Validate(forms);
      if hasError {
        errors := newErrors;
        modal := Show(ErrorModal, FillRequired);
        return None;
      }
      modal := Show(LoadingModal, "Submitting data...");
      errors := seq(|forms|, _ => NoErrors);
      var id := GenerateRandomId(picks);
      var prepared := PrepareUpdate(tokenResponse, dataResponse, shaResponse, NewEntry(id, forms));
      if prepared.Failure? {
        modal := Show(ErrorModal, "Error: " + prepared.error);
        return None;
      }
      request := Some(prepared.value);
      var pushed := PushResult(putResponse);
      if pushed.Failure? {
        modal := Show(ErrorModal, "Error: " + pushed.error);
        return;
      }
      modal := ModalState(true, SuccessModal, "Data successfully submitted!", Some(id));
      forms := [BlankRow];
      errors := [NoErrors];
    }

    /** `closeModal`. */
    method CloseModal()
      modifies this
      ensures modal == Closed && forms == old(forms) && errors == old(errors)
    {
      modal := Closed;
    }
  }
}
