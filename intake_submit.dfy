/** The submit handler of the symptom intake form: fail-fast validation, the request
    payload, and the classification of what comes back into a rendered results panel
    or an alert. The network exchange is given as a `Reply` value. */
module IntakeSubmit {
  import opened Wrappers
  import opened Text
  import opened OrderedSet
  import opened IntakeControls

  const GenderMissing := "Please select your gender"
  const AgeInvalid := "Please enter a valid age (1-120)"
  const SymptomsMissing := "Please select at least one symptom"
  const FailurePrefix := "Failed to get prediction: "
  const HttpErrorPrefix := "HTTP error! Status: "
  /** The message of the TypeError a browser's JavaScript engine (V8) raises for
      `.join` on a missing list. */
  const MissingListMessage := "Cannot read properties of undefined (reading 'join')"

  /** The JSON body of the POST request. */
  datatype Payload = Payload(gender: int, age: int, symptoms: seq<string>)

  /** The age field is filled in and within 1..120 inclusive. */
  predicate AgeInRange(age: Option<int>)
  {
    age.Some? && 1 <= age.value <= 120
  }

  /** The three checks, in order, each ending the handler with its own message; the
      payload exists only when all three pass. `age` is `None` for an empty field. */
  function Validate(gender: Option<int>, age: Option<int>, symptoms: seq<string>): (r: Result<Payload>)
    ensures gender.None? ==> r == Err(GenderMissing)
    ensures gender.Some? && !AgeInRange(age) ==> r == Err(AgeInvalid)
    ensures gender.Some? && AgeInRange(age) && symptoms == [] ==> r == Err(SymptomsMissing)
    ensures r.Ok? <==> gender.Some? && AgeInRange(age) && symptoms != []
    ensures r.Ok? ==> r.value.gender == gender.value && r.value.age == age.value
    ensures r.Ok? ==> r.value.symptoms == symptoms
  {
    if gender.None? then Err(GenderMissing)
    else if age.None? || age.value < 1 || age.value > 120 then Err(AgeInvalid)
    else if |symptoms| == 0 then Err(SymptomsMissing)
    else Ok(Payload(gender.value, age.value, symptoms))
  }

  /** The fields of a prediction. */
  datatype Record = Record(disease: string, description: string, medicines: string, diet: string,
                           precautions: seq<string>, workout: seq<string>)

  /** A parsed response body: its `error` field, if any, and its prediction fields, if present. */
  datatype Body = Body(error: Option<string>, record: Option<Record>)

  /** `response.json()`: a parsed body, or the message of the parse failure. */
  datatype Json = Parsed(body: Body) | Unparsable(message: string)

  /** What the network gives back for the request: a rejected `fetch`, or a response. */
  datatype Reply = NetworkFailure(message: string) | Response(status: nat, json: Json)

  /** The text of the results panel: the record's fields, the two lists joined with ", ". */
  datatype Panel = Panel(disease: string, description: string, medicines: string, diet: string,
                         precautions: string, workout: string)

  /** A status is in 200..299 exactly when it prints as three digits led by `2`. */
  lemma TwoHundredsClass(status: nat)
    ensures 200 <= status <= 299 <==> |DecimalString(status)| == 3 && DecimalString(status)[0] == '2'
  {
    var s, tens := DecimalString(status), status / 10;
    if status >= 10 {
      assert s == DecimalString(tens) + [Digit(status % 10)];
      var hundreds := tens / 10;
      if tens >= 10 {
        assert DecimalString(tens) == DecimalString(hundreds) + [Digit(tens % 10)];
        if hundreds < 10 {
          assert s[0] == Digit(hundreds);
          assert 200 <= status <= 299 <==> hundreds == 2;
        } else {
          assert |DecimalString(hundreds)| >= 2 by {
            assert DecimalString(hundreds) == DecimalString(hundreds / 10) + [Digit(hundreds % 10)];
          }
        }
      }
    }
  }

  /** `response.ok`: the status is of the 2xx class, three digits led by `2`. */
  function IsOk(status: nat): (ok: bool)
    ensures ok <==> |DecimalString(status)| == 3 && DecimalString(status)[0] == '2'
  {
    TwoHundredsClass(status);
    200 <= status <= 299
  }

  /** An `error` field that JavaScript treats as true: present and not the empty string. */
  predicate Truthy(error: Option<string>)
  {
    error.Some? && error.value != ""
  }

  /** The message thrown for a status that is not ok: the prefix, then the status's digits. */
  function HttpErrorMessage(status: nat): (m: string)
    ensures HttpErrorPrefix <= m && |m| > |HttpErrorPrefix|
    ensures IsDigits(m[|HttpErrorPrefix|..])
    ensures status > 0 ==> m[|HttpErrorPrefix|] != '0'
  {
    HttpErrorPrefix + DecimalString(status)
  }

  /** The error for a failed status names that status: the digits after the prefix
      read back as the status code. */
  lemma HttpErrorNamesStatus(status: nat)
    ensures HttpErrorPrefix <= HttpErrorMessage(status)
    ensures var digits := HttpErrorMessage(status)[|HttpErrorPrefix|..];
      IsDigits(digits) && DecimalValue(digits) == status
  {
    assert HttpErrorMessage(status)[|HttpErrorPrefix|..] == DecimalString(status);
    DecimalRoundTrip(status);
  }

  /** What the handler makes of the reply: the checks in order — status, then the parsed
      body, then the `error` field, then the lists — and the panel text on success. */
  function Classify(reply: Reply): (r: Result<Panel>)
    ensures reply.NetworkFailure? ==> r == Err(reply.message)
    ensures reply.Response? && !IsOk(reply.status) ==> r == Err(HttpErrorMessage(reply.status))
    ensures reply.Response? && IsOk(reply.status) && reply.json.Unparsable? ==> r == Err(reply.json.message)
    ensures reply.Response? && IsOk(reply.status) && reply.json.Parsed? && Truthy(reply.json.body.error) ==>
      r == Err(reply.json.body.error.value)
    ensures r.Ok? <==> (reply.Response? && IsOk(reply.status) && reply.json.Parsed? &&
                        !Truthy(reply.json.body.error) && reply.json.body.record.Some?)
    ensures r.Ok? ==> var rec := reply.json.body.record.value;
      r.value.disease == rec.disease && r.value.description == rec.description &&
      r.value.medicines == rec.medicines && r.value.diet == rec.diet &&
      r.value.precautions == Join(rec.precautions, ", ") && r.value.workout == Join(rec.workout, ", ")
  {
    match reply
    case NetworkFailure(message) => Err(message)
    case Response(status, json) =>
      if !IsOk(status) then Err(HttpErrorMessage(status))
      else match json
        case Unparsable(message) => Err(message)
        case Parsed(body) =>
          if Truthy(body.error) then Err(body.error.value)
          else match body.record
            case None => Err(MissingListMessage)
            case Some(rec) =>
              Ok(Panel(rec.disease, rec.description, rec.medicines, rec.diet,
                       Join(rec.precautions, ", "), Join(rec.workout, ", ")))
  }

  /** The whole of one submission: rejected by validation (nothing sent), sent and failed
      (an alert with the failure message), or sent and shown. */
  datatype Submission =
    | Rejected(alert: string)
    | Failed(payload: Payload, alert: string)
    | Shown(payload: Payload, panel: Panel)

  function Submit(gender: Option<int>, age: Option<int>, symptoms: seq<string>, reply: Reply): (s: Submission)
    ensures s.Rejected? <==> Validate(gender, age, symptoms).Err?
    ensures s.Rejected? ==> s.alert == Validate(gender, age, symptoms).message
    ensures gender.None? ==> s == Rejected(GenderMissing)
    ensures !s.Rejected? ==> Validate(gender, age, symptoms) == Ok(s.payload)
    ensures s.Failed? ==> Classify(reply).Err? && s.alert == FailurePrefix + Classify(reply).message
    ensures s.Shown? ==> Classify(reply) == Ok(s.panel)
  {
    match Validate(gender, age, symptoms)
    case Err(message) => Rejected(message)
    case Ok(payload) =>
      match Classify(reply)
      case Err(message) => Failed(payload, FailurePrefix + message)
      case Ok(panel) => Shown(payload, panel)
  }

  /** The form: the two selection controls it reads, and the results panel it writes. */
  class IntakeForm {
    const gender: GenderGroup
    const picker: SymptomPicker
    var resultsDisplay: Display
    var results: Option<Panel>

    constructor (gender: GenderGroup, picker: SymptomPicker)
      ensures this.gender == gender && this.picker == picker
      ensures resultsDisplay == Unset && results == None
    {
      this.gender := gender;
      this.picker := picker;
      resultsDisplay := Unset;
      results := None;
    }

    /** The submit handler, with the age field's value and the reply the request gets if
        one is sent. It returns the request it sent, if any, and the alert it raised, if
        any; the panel changes only when a prediction is shown. */
    method OnSubmit(age: Option<int>, reply: Reply) returns (sent: Option<Payload>, alert: Option<string>)
      requires picker.Valid()
      modifies this
      ensures sent.Some? ==> NoDup(sent.value.symptoms)
      ensures var s := Submit(old(gender.selectedGender), age, old(picker.selectedSymptoms), reply);
        && sent == (if s.Rejected? then None else Some(s.payload))
        && alert == (if s.Shown? then None else Some(s.alert))
        && (s.Shown? ==> results == Some(s.panel) && resultsDisplay == Block)
        && (!s.Shown? ==> results == old(results) && resultsDisplay == old(resultsDisplay))
    {
      var checked := Validate(gender.selectedGender, age, picker.selectedSymptoms);
      if checked.Err? {
        return None, Some(checked.message);
      }
      sent := Some(checked.value);
      var outcome := Classify(reply);
      if outcome.Err? {
        return sent, Some(FailurePrefix + outcome.message);
      }
      results := Some(outcome.value);
      resultsDisplay := Block;
      alert := None;
    }
  }
}
