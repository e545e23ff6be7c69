/** The feature vector the prediction endpoint builds from a request: one slot per
    training column, age and gender in the first two, then a one-hot flag per known symptom. */
module Features {
  import opened OrderedSet

  /** The training columns, in the order the model expects them, written in the eight
      rows in which the endpoint lists them. */
  const Row1: seq<string> := ["Age", "Gender", "nausea", "joint_pain", "abdominal_pain", "high_fever", "chills"]
  const Row2: seq<string> := ["fatigue", "runny_nose", "pain_behind_the_eyes", "dizziness", "headache", "chest_pain"]
  const Row3: seq<string> := ["vomiting", "cough", "shivering", "asthma_history", "high_cholesterol", "diabetes"]
  const Row4: seq<string> := ["obesity", "hiv_aids", "nasal_polyps", "asthma", "high_blood_pressure", "severe_headache"]
  const Row5: seq<string> := ["weakness", "trouble_seeing", "fever", "body_aches", "sore_throat", "sneezing"]
  const Row6: seq<string> := ["diarrhea", "rapid_breathing", "rapid_heart_rate", "pain_behind_eyes", "swollen_glands"]
  const Row7: seq<string> := ["rashes", "sinus_headache", "facial_pain", "shortness_of_breath", "reduced_smell_and_taste"]
  const Row8: seq<string> := ["skin_irritation", "itchiness", "throbbing_headache", "confusion", "back_pain", "knee_ache"]

  const FeatureColumns: seq<string> := Row1 + Row2 + Row3 + Row4 + Row5 + Row6 + Row7 + Row8

  /** No row repeats a name. */
  lemma RowsHaveNoRepeats()
    ensures NoDup(Row1)
    ensures NoDup(Row2)
    ensures NoDup(Row3)
    ensures NoDup(Row4)
    ensures NoDup(Row5)
    ensures NoDup(Row6)
    ensures NoDup(Row7)
    ensures NoDup(Row8)
  {
  }

  /** The names of rows 2 to 5 do not occur in an earlier row. */
  lemma Rows2To5AreNew()
    ensures forall x :: x in Row2 ==> x !in Row1
    ensures forall x :: x in Row3 ==> x !in Row1 && x !in Row2
    ensures forall x :: x in Row4 ==> x !in Row1 && x !in Row2 && x !in Row3
    ensures forall x :: x in Row5 ==> x !in Row1 && x !in Row2 && x !in Row3 && x !in Row4
  {
  }

  /** The names of rows 6 and 7 do not occur in an earlier row. */
  lemma Rows6And7AreNew()
    ensures forall x :: x in Row6 ==> x !in Row1 && x !in Row2 && x !in Row3 && x !in Row4 && x !in Row5
    ensures forall x :: x in Row7 ==> x !in Row1 && x !in Row2 && x !in Row3 && x !in Row4 && x !in Row5 && x !in Row6
  {
  }

  /** The names of row 8 do not occur in an earlier row. */
  lemma Row8IsNew()
    ensures forall x :: x in Row8 ==> x !in Row1 && x !in Row2 && x !in Row3 && x !in Row4 && x !in Row5 && x !in Row6 && x !in Row7
  {
  }

  /** There are 47 columns, age and gender come first, and no column name repeats,
      so `index` finds the one slot of each known symptom. */
  lemma {:induction false} ColumnsShape()
    ensures |FeatureColumns| == 47
    ensures FeatureColumns[0] == "Age" && FeatureColumns[1] == "Gender"
    ensures NoDup(FeatureColumns)
  {
    RowsHaveNoRepeats();
    Rows2To5AreNew();
    Rows6And7AreNew();
    Row8IsNew();
    NoDupConcat(Row1, Row2);
    NoDupConcat(Row1 + Row2, Row3);
    NoDupConcat(Row1 + Row2 + Row3, Row4);
    NoDupConcat(Row1 + Row2 + Row3 + Row4, Row5);
    NoDupConcat(Row1 + Row2 + Row3 + Row4 + Row5, Row6);
    NoDupConcat(Row1 + Row2 + Row3 + Row4 + Row5 + Row6, Row7);
    NoDupConcat(Row1 + Row2 + Row3 + Row4 + Row5 + Row6 + Row7, Row8);
  }

  /** Python's `list.index`: the first position holding `x`. */
  function IndexOf(cols: seq<string>, x: string): (r: nat)
    requires x in cols
    ensures r < |cols| && cols[r] == x
    ensures x !in cols[..r]
  {
    if cols[0] == x then 0 else IndexOf(cols[1..], x) + 1
  }

  /** In a list without repeats, `index` of the name at position `k` is `k`. */
  lemma IndexOfAt(cols: seq<string>, k: nat)
    requires NoDup(cols) && k < |cols|
    ensures IndexOf(cols, cols[k]) == k
  {
  }

  /** The vector before any symptom is marked: all zeros, then age and gender written
      into the first two slots. */
  function Initial(age: int, gender: int): (v: seq<int>)
    ensures |v| == |FeatureColumns|
  {
    seq(|FeatureColumns|, i => 0)[0 := age][1 := gender]
  }

  /** One step of the symptom loop: a known symptom sets its column to 1, an unknown one
      is skipped. */
  function Mark(v: seq<int>, symptom: string): (r: seq<int>)
    requires |v| == |FeatureColumns|
    ensures |r| == |v|
  {
    if symptom in FeatureColumns then v[IndexOf(FeatureColumns, symptom) := 1] else v
  }

  /** The symptom loop run over `symptoms` in order, starting from `v`. */
  function Encode(v: seq<int>, symptoms: seq<string>): (r: seq<int>)
    requires |v| == |FeatureColumns|
    ensures |r| == |v|
    decreases |symptoms|
  {
    if symptoms == [] then v
    else Mark(Encode(v, symptoms[..|symptoms| - 1]), symptoms[|symptoms| - 1])
  }

  /** The feature vector of a request. */
  function FeatureVector(age: int, gender: int, symptoms: seq<string>): (r: seq<int>)
    ensures |r| == |FeatureColumns|
  {
    Encode(Initial(age, gender), symptoms)
  }

  /** After the loop, a column is 1 exactly when its name is among the symptoms;
      every other column keeps its starting value. */
  lemma {:induction false} EncodeAt(v: seq<int>, symptoms: seq<string>, k: nat)
    requires |v| == |FeatureColumns| && k < |FeatureColumns|
    ensures Encode(v, symptoms)[k] == if FeatureColumns[k] in symptoms then 1 else v[k]
    decreases |symptoms|
  {
    if symptoms != [] {
      var front, last := symptoms[..|symptoms| - 1], symptoms[|symptoms| - 1];
      assert symptoms == front + [last];
      EncodeAt(v, front, k);
      if last in FeatureColumns {
        ColumnsShape();
        IndexOfAt(FeatureColumns, k);
        assert IndexOf(FeatureColumns, last) == k <==> last == FeatureColumns[k];
      }
    }
  }

  /** Each slot of the feature vector: 1 for a column named by some symptom (even `Age`
      or `Gender`), otherwise age in slot 0, gender in slot 1 and 0 elsewhere. */
  lemma FeatureVectorAt(age: int, gender: int, symptoms: seq<string>, k: nat)
    requires k < |FeatureColumns|
    ensures FeatureVector(age, gender, symptoms)[k] ==
      if FeatureColumns[k] in symptoms then 1
      else if k == 0 then age
      else if k == 1 then gender
      else 0
  {
    EncodeAt(Initial(age, gender), symptoms, k);
  }

  /** The vector depends only on which columns the symptoms name: their order,
      repetitions and any unknown names make no difference. */
  lemma SameKnownSymptomsSameVector(age: int, gender: int, s1: seq<string>, s2: seq<string>)
    requires forall c :: c in FeatureColumns ==> (c in s1 <==> c in s2)
    ensures FeatureVector(age, gender, s1) == FeatureVector(age, gender, s2)
  {
    forall k | 0 <= k < |FeatureColumns|
      ensures FeatureVector(age, gender, s1)[k] == FeatureVector(age, gender, s2)[k]
    {
      FeatureVectorAt(age, gender, s1, k);
      FeatureVectorAt(age, gender, s2, k);
    }
  }

  /** An unknown symptom is ignored without error. */
  lemma UnknownSymptomIgnored(age: int, gender: int, symptoms: seq<string>, unknown: string)
    requires unknown !in FeatureColumns
    ensures FeatureVector(age, gender, symptoms + [unknown]) == FeatureVector(age, gender, symptoms)
  {
    assert (symptoms + [unknown])[..|symptoms|] == symptoms;
  }

  /** The vector construction of the predict handler: a list of zeros updated in place. */
  method BuildFeatureVector(age: int, gender: int, symptoms: seq<string>) returns (v: array<int>)
    ensures v.Length == |FeatureColumns|
    ensures v[..] == FeatureVector(age, gender, symptoms)
  {
    v := new int[|FeatureColumns|](i => 0);
    v[0] := age;
    v[1] := gender;
    for i := 0 to |symptoms|
      invariant v.Length == |FeatureColumns|
      invariant v[..] == Encode(Initial(age, gender), symptoms[..i])
    {
      assert symptoms[..i + 1][..i] == symptoms[..i];
      var symptom := symptoms[i];
      if symptom in FeatureColumns {
        v[IndexOf(FeatureColumns, symptom)] := 1;
      }
    }
    assert symptoms[..|symptoms|] == symptoms;
  }
}
