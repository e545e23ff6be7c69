/** The two halves together: the endpoint's reply as the form's submit handler receives it. */
module EndToEnd {
  import opened Wrappers
  import opened Text
  import Features
  import Prediction
  import IntakeSubmit

  /** The reply on the wire: the answer's fields with status 200, or a body holding only
      `error` with status 500. */
  function OnWire(r: Prediction.EndpointReply): (w: IntakeSubmit.Reply)
    ensures w.Response? && w.status == r.Status() && w.json.Parsed?
  {
    match r
    case Answered(a) =>
      var rec := IntakeSubmit.Record(a.disease, a.description, a.medicines, a.diet, a.precautions, a.workout);
      IntakeSubmit.Response(r.Status(), IntakeSubmit.Parsed(IntakeSubmit.Body(None, Some(rec))))
    case Failed(e) =>
      IntakeSubmit.Response(r.Status(), IntakeSubmit.Parsed(IntakeSubmit.Body(Some(e), None)))
  }

  /** The request the endpoint reads from a payload the form sent: every key is present. */
  function Received(p: IntakeSubmit.Payload): Prediction.Request
  {
    Prediction.Request(Some(p.age), Some(p.gender), Some(p.symptoms))
  }

  /** An answer reaches the panel field for field, the precaution and workout lists
      joined with ", ". */
  lemma AnswerIsShown(a: Prediction.Answer)
    ensures IntakeSubmit.Classify(OnWire(Prediction.Answered(a))) ==
      Ok(IntakeSubmit.Panel(a.disease, a.description, a.medicines, a.diet,
                            Join(a.precautions, ", "), Join(a.workout, ", ")))
  {
  }

  /** A server-side exception reaches the user only as its status: the status check comes
      first, so the `error` message the endpoint sends is never shown. */
  lemma ServerErrorShowsOnlyStatus(e: string, gender: Option<int>, age: Option<int>, symptoms: seq<string>)
    requires IntakeSubmit.Validate(gender, age, symptoms).Ok?
    ensures IntakeSubmit.Classify(OnWire(Prediction.Failed(e))) == Err(IntakeSubmit.HttpErrorMessage(500))
    ensures IntakeSubmit.Submit(gender, age, symptoms, OnWire(Prediction.Failed(e))).alert ==
      IntakeSubmit.FailurePrefix + IntakeSubmit.HttpErrorMessage(500)
  {
  }

  /** A payload the form sent never meets the endpoint's missing-key errors: a failure
      can only come from the model, which is asked about the form's own age, gender and
      symptoms, or from the lookups for the disease it names. */
  lemma SentPayloadReachesModel(p: IntakeSubmit.Payload, model: seq<int> -> Result<string>,
                                lookup: string -> Result<Prediction.Lookups>)
    ensures var v := Features.FeatureVector(p.age, p.gender, p.symptoms);
      var r := Prediction.Respond(Received(p), model, lookup);
      r.Failed? ==>
        || (model(v).Err? && r.error == model(v).message)
        || (model(v).Ok? && lookup(model(v).value).Err? && r.error == lookup(model(v).value).message)
  {
  }
}
