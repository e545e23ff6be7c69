/** The prediction endpoint: read the request's fields, build the feature vector, hand it
    to the trained model, and format the looked-up information into the reply. The model
    and the table lookups are given as functions that either answer or raise. */
module Prediction {
  import opened Wrappers
  import opened Text
  import opened Features

  /** A cell of a looked-up table row; pandas reports an empty cell as NaN. */
  datatype Cell = NaN | Value(text: string)

  const PrecautionColumns: seq<string> := ["Precaution_1", "Precaution_2", "Precaution_3", "Precaution_4"]

  /** `row.get(key)` kept when `pd.notna` holds of it: the cell's text if the row has the
      key and the cell is not NaN, nothing otherwise. */
  function ValueAt(row: map<string, Cell>, key: string): (r: seq<string>)
    ensures |r| <= 1
  {
    if key in row && row[key].Value? then [row[key].text] else []
  }

  /** The comprehension over `keys`: the kept values, in the order of `keys`. */
  function PresentValues(row: map<string, Cell>, keys: seq<string>): (r: seq<string>)
    ensures |r| <= |keys|
  {
    if keys == [] then [] else ValueAt(row, keys[0]) + PresentValues(row, keys[1..])
  }

  /** The comprehension keeps the order of its keys: the values for `k1 + k2` are those
      for `k1` followed by those for `k2`. */
  lemma {:induction false} PresentValuesAppend(row: map<string, Cell>, k1: seq<string>, k2: seq<string>)
    ensures PresentValues(row, k1 + k2) == PresentValues(row, k1) + PresentValues(row, k2)
  {
    if k1 != [] {
      assert (k1 + k2)[1..] == k1[1..] + k2;
      PresentValuesAppend(row, k1[1..], k2);
    } else {
      assert k1 + k2 == k2;
    }
  }

  /** The precaution list of a disease: at most four. */
  function Precautions(row: map<string, Cell>): (r: seq<string>)
    ensures |r| <= 4
  {
    PresentValues(row, PrecautionColumns)
  }

  /** The comprehension over `[k] + ks` is the value kept for `k`, then those for `ks`. */
  lemma PresentValuesCons(row: map<string, Cell>, k: string, ks: seq<string>)
    ensures PresentValues(row, [k] + ks) == ValueAt(row, k) + PresentValues(row, ks)
  {
    assert ([k] + ks)[1..] == ks;
  }

  /** The comprehension over four keys keeps each present value in key order. */
  lemma PresentValuesOfFour(row: map<string, Cell>, a: string, b: string, c: string, d: string)
    ensures PresentValues(row, [a, b, c, d]) ==
      ValueAt(row, a) + ValueAt(row, b) + ValueAt(row, c) + ValueAt(row, d)
  {
    assert [a, b, c, d] == [a] + ([b] + ([c] + [d]));
    PresentValuesCons(row, d, []);
    PresentValuesCons(row, c, [d]);
    PresentValuesCons(row, b, [c] + [d]);
    PresentValuesCons(row, a, [b] + ([c] + [d]));
    var va, vb, vc, vd := ValueAt(row, a), ValueAt(row, b), ValueAt(row, c), ValueAt(row, d);
    assert va + (vb + (vc + vd)) == va + vb + vc + vd;
  }

  /** The precautions are Precaution_1 to Precaution_4 in that order, each present value
      kept and each missing or NaN one dropped. */
  lemma PrecautionsInOrder(row: map<string, Cell>)
    ensures Precautions(row) ==
      ValueAt(row, "Precaution_1") + ValueAt(row, "Precaution_2") +
      ValueAt(row, "Precaution_3") + ValueAt(row, "Precaution_4")
  {
    PresentValuesOfFour(row, "Precaution_1", "Precaution_2", "Precaution_3", "Precaution_4");
  }

  /** A row with all four precautions gives all four; a row without any (or no row at
      all) gives none. */
  lemma PrecautionsExtremes(row: map<string, Cell>)
    ensures (forall k :: k in PrecautionColumns ==> k in row && row[k].Value?) ==>
      Precautions(row) == [row["Precaution_1"].text, row["Precaution_2"].text,
                           row["Precaution_3"].text, row["Precaution_4"].text]
    ensures (forall k :: k in PrecautionColumns ==> k !in row || row[k] == NaN) ==> Precautions(row) == []
  {
    PrecautionsInOrder(row);
  }

  /** The request's JSON body; a field is `None` when the key is missing. */
  datatype Request = Request(age: Option<int>, gender: Option<int>, symptoms: Option<seq<string>>)

  /** What the tables hold for the predicted disease, lists already parsed; an empty
      description and empty lists when the disease has no row. */
  datatype Lookups = Lookups(description: string, medicine: seq<string>, diet: seq<string>,
                             precautionRow: map<string, Cell>, workout: seq<string>)

  /** The body of a successful reply. */
  datatype Answer = Answer(disease: string, description: string, medicines: string, diet: string,
                           precautions: seq<string>, workout: seq<string>)

  /** The reply: the answer with status 200, or `{error: message}` with status 500. */
  datatype EndpointReply = Answered(answer: Answer) | Failed(error: string)
  {
    function Status(): nat
    {
      if Answered? then 200 else 500
    }
  }

  /** `str(KeyError(key))`: the key in single quotes. */
  function KeyErrorMessage(key: string): string
  {
    "'" + key + "'"
  }

  /** The message of a missing key names that key: different keys give different messages. */
  lemma KeyErrorNamesKey(k1: string, k2: string)
    ensures KeyErrorMessage(k1) == KeyErrorMessage(k2) <==> k1 == k2
  {
    if KeyErrorMessage(k1) == KeyErrorMessage(k2) {
      var m := KeyErrorMessage(k1);
      assert m[1..|m| - 1] == k1;
      assert KeyErrorMessage(k2)[1..|m| - 1] == k2;
    }
  }

  /** The reply for a disease and what the tables hold for it: the names pass through,
      the two lists become one text each (empty for no entries, the entry itself for one,
      and the entries with ", " between them in general), and the precautions are the
      present ones of Precaution_1..4 in order. */
  function Format(disease: string, t: Lookups): (a: Answer)
    ensures a.disease == disease && a.description == t.description && a.workout == t.workout
    ensures t.medicine == [] ==> a.medicines == ""
    ensures |t.medicine| == 1 ==> a.medicines == t.medicine[0]
    ensures t.medicine != [] ==>
      (t.medicine[0] <= a.medicines && |a.medicines| == TotalLength(t.medicine) + 2 * (|t.medicine| - 1))
    ensures t.diet == [] ==> a.diet == ""
    ensures |t.diet| == 1 ==> a.diet == t.diet[0]
    ensures t.diet != [] ==>
      (t.diet[0] <= a.diet && |a.diet| == TotalLength(t.diet) + 2 * (|t.diet| - 1))
    ensures var row := t.precautionRow;
      a.precautions == ValueAt(row, "Precaution_1") + ValueAt(row, "Precaution_2") +
                       ValueAt(row, "Precaution_3") + ValueAt(row, "Precaution_4")
  {
    assert t.medicine != [] ==> |Join(t.medicine, ", ")| == TotalLength(t.medicine) + 2 * (|t.medicine| - 1) by {
      if t.medicine != [] { JoinLength(t.medicine, ", "); }
    }
    assert t.diet != [] ==> |Join(t.diet, ", ")| == TotalLength(t.diet) + 2 * (|t.diet| - 1) by {
      if t.diet != [] { JoinLength(t.diet, ", "); }
    }
    PrecautionsInOrder(t.precautionRow);
    Answer(disease, t.description, Join(t.medicine, ", "), Join(t.diet, ", "),
           Precautions(t.precautionRow), t.workout)
  }

  /** Medicines and diet are the `", "`-joins of their lists: one more entry appends the
      separator and that entry. With the empty and one-entry cases of `Format`'s contract,
      this fixes both texts for every list. */
  lemma FormatAppendsEntry(disease: string, t: Lookups, x: string)
    ensures t.medicine != [] ==>
      Format(disease, t.(medicine := t.medicine + [x])).medicines == Format(disease, t).medicines + ", " + x
    ensures t.diet != [] ==>
      Format(disease, t.(diet := t.diet + [x])).diet == Format(disease, t).diet + ", " + x
  {
    if t.medicine != [] {
      JoinSnoc(t.medicine, x, ", ");
    }
    if t.diet != [] {
      JoinSnoc(t.diet, x, ", ");
    }
  }

  /** The handler's result: a missing key raises first (age, then gender, then symptoms);
      otherwise the model sees the feature vector, and any exception it or the lookups
      raise becomes a status-500 reply carrying its message. */
  function Respond(req: Request, model: seq<int> -> Result<string>, lookup: string -> Result<Lookups>): (r: EndpointReply)
    ensures req.age.None? ==> r == Failed(KeyErrorMessage("age"))
    ensures req.age.Some? && req.gender.None? ==> r == Failed(KeyErrorMessage("gender"))
    ensures req.age.Some? && req.gender.Some? && req.symptoms.None? ==> r == Failed(KeyErrorMessage("symptoms"))
    ensures r.Answered? ==>
      && req.age.Some? && req.gender.Some? && req.symptoms.Some?
      && model(FeatureVector(req.age.value, req.gender.value, req.symptoms.value)) == Ok(r.answer.disease)
      && lookup(r.answer.disease).Ok?
      && r.answer == Format(r.answer.disease, lookup(r.answer.disease).value)
    ensures r.Answered? <==>
      && req.age.Some? && req.gender.Some? && req.symptoms.Some?
      && model(FeatureVector(req.age.value, req.gender.value, req.symptoms.value)).Ok?
      && lookup(model(FeatureVector(req.age.value, req.gender.value, req.symptoms.value)).value).Ok?
  {
    if req.age.None? then Failed(KeyErrorMessage("age"))
    else if req.gender.None? then Failed(KeyErrorMessage("gender"))
    else if req.symptoms.None? then Failed(KeyErrorMessage("symptoms"))
    else
      match model(FeatureVector(req.age.value, req.gender.value, req.symptoms.value))
      case Err(message) => Failed(message)
      case Ok(disease) =>
        match lookup(disease)
        case Err(message) => Failed(message)
        case Ok(t) => Answered(Format(disease, t))
  }

  /** The predict handler. */
  method Predict(req: Request, model: seq<int> -> Result<string>, lookup: string -> Result<Lookups>)
    returns (reply: EndpointReply)
    ensures reply == Respond(req, model, lookup)
  {
    if req.age.None? {
      return Failed(KeyErrorMessage("age"));
    }
    if req.gender.None? {
      return Failed(KeyErrorMessage("gender"));
    }
    if req.symptoms.None? {
      return Failed(KeyErrorMessage("symptoms"));
    }
    var features := BuildFeatureVector(req.age.value, req.gender.value, req.symptoms.value);
    var predicted := model(features[..]);
    if predicted.Err? {
      return Failed(predicted.message);
    }
    var tables := lookup(predicted.value);
    if tables.Err? {
      return Failed(tables.message);
    }
    reply := Answered(Format(predicted.value, tables.value));
  }
}
