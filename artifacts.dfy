/** The serving context app.py builds once at start-up (lines 13-73): the
    fitted imputer, the fitted classifier and the feature schema, with the
    fallback schema taken from the keys of `feature_descriptions`. */
module Artifacts {
  import opened Wrappers
  import opened Frames

  /** The keys of the `feature_descriptions` dict literal (app.py lines
      20-54), in the order they are written. */
  const GlossaryKeys: seq<string> := [
    "Age", "Gender", "Ethnicity", "Education", "BMI", "Smoking",
    "AlcoholConsumption", "PhysicalActivity", "DietQuality", "SleepQuality",
    "FamilyHistoryAlzheimers", "CardiovascularDisease", "Diabetes", "Depression",
    "HeadInjury", "Hypertension", "SystolicBP", "DiastolicBP",
    "CholesterolTotal", "CholesterolLDL", "CholesterolHDL", "CholesterolTriglycerides",
    "MMSE", "FunctionalAssessment", "MemoryComplaints", "BehavioralProblems",
    "ADL", "Confusion", "Disorientation", "PersonalityChanges",
    "DifficultyCompletingTasks", "Forgetfulness"
  ]

  /** The keys of a dict literal whose keys are written in the order `ks`: a
      key written twice keeps the position of its first occurrence. */
  function DictLiteralKeys(ks: seq<string>): (r: seq<string>)
    ensures NoDuplicates(r)
    ensures forall x :: x in r <==> x in ks
    ensures NoDuplicates(ks) ==> r == ks
  {
    if ks == [] then []
    else
      var init := DictLiteralKeys(ks[..|ks| - 1]);
      var last := ks[|ks| - 1];
      assert forall x :: x in ks <==> x in ks[..|ks| - 1] || x == last by {
        assert ks == ks[..|ks| - 1] + [last];
      }
      if last in init then init else init + [last]
  }

  /** `list(feature_descriptions.keys())`: the schema used when the artifacts
      cannot supply one. */
  function DescriptionKeys(): (keys: seq<string>)
    ensures NoDuplicates(keys)
    ensures forall x :: x in keys <==> x in GlossaryKeys
    ensures keys == GlossaryKeys
  {
    GlossaryDistinct();
    DictLiteralKeys(GlossaryKeys)
  }

  /** A fingerprint of a key: its length, its first two characters and its
      third character from the end. Two keys with different fingerprints
      are different keys. */
  function KeyCode(k: string): int
    requires |k| >= 3
  {
    ((|k| * 128 + k[0] as int) * 128 + k[1] as int) * 128 + k[|k| - 3] as int
  }

  /** The fingerprints of the glossary's keys, in written order. */
  const GlossaryCodes: seq<int> := [
    7369665, 13759204, 20019817, 20017769, 7382722, 16053993,
    38827625, 34878569, 24196329, 26539625,
    49393893, 45150433, 17904884, 22098665,
    22164213, 26361065, 22346979, 24196323,
    34665588, 30471244, 30471240, 51442788,
    9660109, 43104997, 34829038, 38843109,
    7365185, 19986409, 30487785, 39072487,
    53556467, 28424165
  ]

  /** Keys `lo` to `hi` of the glossary have the fingerprints listed. */
  predicate CodesMatch(lo: nat, hi: nat)
    requires lo <= hi <= |GlossaryKeys| == |GlossaryCodes|
  {
    forall i :: lo <= i < hi ==> |GlossaryKeys[i]| >= 3 && KeyCode(GlossaryKeys[i]) == GlossaryCodes[i]
  }

  /** Fingerprints `lo` to `hi` differ from every fingerprint listed after them. */
  predicate CodesDistinct(lo: nat, hi: nat)
    requires lo <= hi <= |GlossaryCodes|
  {
    forall i, j :: lo <= i < hi && i < j < |GlossaryCodes| ==> GlossaryCodes[i] != GlossaryCodes[j]
  }

  lemma GlossaryCodesMatch0()
    ensures CodesMatch(0, 8)
  {
    assert KeyCode(GlossaryKeys[0]) == GlossaryCodes[0];
    assert KeyCode(GlossaryKeys[1]) == GlossaryCodes[1];
    assert KeyCode(GlossaryKeys[2]) == GlossaryCodes[2];
    assert KeyCode(GlossaryKeys[3]) == GlossaryCodes[3];
    assert KeyCode(GlossaryKeys[4]) == GlossaryCodes[4];
    assert KeyCode(GlossaryKeys[5]) == GlossaryCodes[5];
    assert KeyCode(GlossaryKeys[6]) == GlossaryCodes[6];
    assert KeyCode(GlossaryKeys[7]) == GlossaryCodes[7];
  }

  lemma GlossaryCodesMatch8()
    ensures CodesMatch(8, 16)
  {
    assert KeyCode(GlossaryKeys[8]) == GlossaryCodes[8];
    assert KeyCode(GlossaryKeys[9]) == GlossaryCodes[9];
    assert KeyCode(GlossaryKeys[10]) == GlossaryCodes[10];
    assert KeyCode(GlossaryKeys[11]) == GlossaryCodes[11];
    assert KeyCode(GlossaryKeys[12]) == GlossaryCodes[12];
    assert KeyCode(GlossaryKeys[13]) == GlossaryCodes[13];
    assert KeyCode(GlossaryKeys[14]) == GlossaryCodes[14];
    assert KeyCode(GlossaryKeys[15]) == GlossaryCodes[15];
  }

  lemma GlossaryCodesMatch16()
    ensures CodesMatch(16, 24)
  {
    assert KeyCode(GlossaryKeys[16]) == GlossaryCodes[16];
    assert KeyCode(GlossaryKeys[17]) == GlossaryCodes[17];
    assert KeyCode(GlossaryKeys[18]) == GlossaryCodes[18];
    assert KeyCode(GlossaryKeys[19]) == GlossaryCodes[19];
    assert KeyCode(GlossaryKeys[20]) == GlossaryCodes[20];
    assert KeyCode(GlossaryKeys[21]) == GlossaryCodes[21];
    assert KeyCode(GlossaryKeys[22]) == GlossaryCodes[22];
    assert KeyCode(GlossaryKeys[23]) == GlossaryCodes[23];
  }

  lemma GlossaryCodesMatch24()
    ensures CodesMatch(24, 32)
  {
    assert KeyCode(GlossaryKeys[24]) == GlossaryCodes[24];
    assert KeyCode(GlossaryKeys[25]) == GlossaryCodes[25];
    assert KeyCode(GlossaryKeys[26]) == GlossaryCodes[26];
    assert KeyCode(GlossaryKeys[27]) == GlossaryCodes[27];
    assert KeyCode(GlossaryKeys[28]) == GlossaryCodes[28];
    assert KeyCode(GlossaryKeys[29]) == GlossaryCodes[29];
    assert KeyCode(GlossaryKeys[30]) == GlossaryCodes[30];
    assert KeyCode(GlossaryKeys[31]) == GlossaryCodes[31];
  }

  lemma GlossaryCodesDistinct0()
    ensures CodesDistinct(0, 4)
  {
  }

  lemma GlossaryCodesDistinct4()
    ensures CodesDistinct(4, 8)
  {
  }

  lemma GlossaryCodesDistinct8()
    ensures CodesDistinct(8, 16)
  {
  }

  lemma GlossaryCodesDistinct16()
    ensures CodesDistinct(16, 24)
  {
  }

  lemma GlossaryCodesDistinct24()
    ensures CodesDistinct(24, 32)
  {
  }

  /** The 32 keys written in the glossary are pairwise distinct: already
      their fingerprints are. */
  lemma GlossaryDistinct()
    ensures NoDuplicates(GlossaryKeys)
  {
    GlossaryCodesMatch0();
    GlossaryCodesMatch8();
    GlossaryCodesMatch16();
    GlossaryCodesMatch24();
    GlossaryCodesDistinct0();
    GlossaryCodesDistinct4();
    GlossaryCodesDistinct8();
    GlossaryCodesDistinct16();
    GlossaryCodesDistinct24();
    var g := GlossaryKeys;
    forall i, j | 0 <= i < j < |g| ensures g[i] != g[j] {
      assert KeyCode(g[i]) != KeyCode(g[j]);
    }
  }

  /** The fitted imputer loaded from `model/imputer.joblib`: its `transform`
      and, when it has one, its `feature_names_in_` attribute. */
  datatype Imputer = Imputer(transform: Table -> seq<seq<real>>, featureNamesIn: Option<seq<string>>)

  /** The fitted classifier loaded from `model/AD_Prediction.joblib`. */
  datatype Classifier = Classifier(predictProba: seq<seq<real>> -> seq<seq<real>>, featureNamesIn: Option<seq<string>>)

  /** What the pipeline relies on of the imputer: the output has the input's
      shape, one row per row and one value per column; being real numbers, its
      cells hold no missing marker. Fitted names carry no duplicates. */
  ghost predicate ImputerContract(imp: Imputer) {
    && (forall t: Table :: t.Valid() ==> |imp.transform(t)| == t.nrows)
    && (forall t: Table, i :: t.Valid() && 0 <= i < |imp.transform(t)| ==> |imp.transform(t)[i]| == |t.columns|)
    && (imp.featureNamesIn.Some? ==> NoDuplicates(imp.featureNamesIn.value))
  }

  /** What the pipeline relies on of the classifier: one row of two class
      probabilities per input row; column 1, the positive class, lies in [0, 1]. */
  ghost predicate ClassifierContract(clf: Classifier) {
    && (forall m :: |clf.predictProba(m)| == |m|)
    && (forall m, i :: 0 <= i < |clf.predictProba(m)| ==> |clf.predictProba(m)[i]| == 2)
    && (forall m, i :: 0 <= i < |clf.predictProba(m)| ==> 0.0 <= clf.predictProba(m)[i][1] <= 1.0)
    && (clf.featureNamesIn.Some? ==> NoDuplicates(clf.featureNamesIn.value))
  }

  /** The module-level globals `imputer`, `model` and `feature_names`. */
  datatype ServingContext = ServingContext(imputer: Option<Imputer>, model: Option<Classifier>, featureNames: seq<string>) {
    /** Both artifacts are loaded, so `predict_diagnosis` scores (line 79). */
    predicate Ready() {
      imputer.Some? && model.Some?
    }

    ghost predicate Valid() {
      && NoDuplicates(featureNames)
      && (imputer.Some? ==> ImputerContract(imputer.value))
      && (model.Some? ==> ClassifierContract(model.value))
    }
  }

  /** Start-up (lines 56-73). `imputerFile` and `modelFile` are what
      `joblib.load` returns, `None` where the file is not found. The imputer is
      loaded first; a missing imputer file stops before the classifier is
      loaded. The schema is the classifier's fitted names, else the imputer's;
      either file missing, or neither artifact carrying names, falls back to
      the description keys. */
  function Load(imputerFile: Option<Imputer>, modelFile: Option<Classifier>): (ctx: ServingContext)
    ensures ctx.imputer == imputerFile
    ensures ctx.model == (if imputerFile.Some? then modelFile else None)
    ensures ctx.Ready() <==> imputerFile.Some? && modelFile.Some?
    ensures !ctx.Ready() ==> ctx.featureNames == DescriptionKeys()
    ensures ctx.Ready() && modelFile.value.featureNamesIn.Some? ==>
      ctx.featureNames == modelFile.value.featureNamesIn.value
    ensures ctx.Ready() && modelFile.value.featureNamesIn.None? && imputerFile.value.featureNamesIn.Some? ==>
      ctx.featureNames == imputerFile.value.featureNamesIn.value
    ensures ctx.Ready() && modelFile.value.featureNamesIn.None? && imputerFile.value.featureNamesIn.None? ==>
      ctx.featureNames == DescriptionKeys()
  {
    match imputerFile
    case None => ServingContext(None, None, DescriptionKeys())
    case Some(imp) =>
      match modelFile
      case None => ServingContext(Some(imp), None, DescriptionKeys())
      case Some(clf) =>
        if clf.featureNamesIn.Some? then ServingContext(Some(imp), Some(clf), clf.featureNamesIn.value)
        else if imp.featureNamesIn.Some? then ServingContext(Some(imp), Some(clf), imp.featureNamesIn.value)
        else ServingContext(Some(imp), Some(clf), DescriptionKeys())
  }

  /** Whatever the files hold, the context built at start-up meets the
      pipeline's assumptions, provided the artifacts meet theirs. */
  lemma LoadValid(imputerFile: Option<Imputer>, modelFile: Option<Classifier>)
    requires imputerFile.Some? ==> ImputerContract(imputerFile.value)
    requires modelFile.Some? ==> ClassifierContract(modelFile.value)
    ensures Load(imputerFile, modelFile).Valid()
  {
  }
}
