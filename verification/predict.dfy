/** The prediction page's logic: the form schema as a table of per-field
    rules, the validator that checks every rule and lists the fields that
    fail, the default record that reset restores, and the submission that
    stores the validated input together with a randomly drawn yield and
    confidence. Field values are the already-coerced numbers; a call to
    `Math.random()` is a parameter in [0, 1). */
module Predict {
  import opened Wrappers
  import Auth

  const NoticeText := "Please log in to make crop yield predictions."

  /** The form's record, one member per schema field. */
  datatype FormValues = FormValues(
    cropType: string,
    soilPh: real,
    soilMoisture: real,
    soilTemperature: real,
    nitrogenLevel: real,
    phosphorusLevel: real,
    potassiumLevel: real,
    organicMatter: real,
    rainfall: real,
    humidity: real,
    sunshineHours: real)

  datatype Field =
    | CropType | SoilPh | SoilMoisture | SoilTemperature | NitrogenLevel | PhosphorusLevel
    | PotassiumLevel | OrganicMatter | Rainfall | Humidity | SunshineHours

  /** A field's value: the crop type is text, every other field a number. */
  datatype Value = TextValue(text: string) | Number(number: real)

  /** The constraint kinds the schema uses: `z.string().min(1)`,
      `z.number()` with no bound, `.min(lo)`, and `.min(lo).max(hi)`. Both
      bounds are inclusive. */
  datatype Check = NonEmptyText | AnyNumber | AtLeast(lo: real) | Between(lo: real, hi: real)

  datatype Rule = Rule(field: Field, check: Check)

  /** The schema, in declaration order. */
  const Schema: seq<Rule> := [
    Rule(CropType, NonEmptyText),
    Rule(SoilPh, Between(0.0, 14.0)),
    Rule(SoilMoisture, Between(0.0, 100.0)),
    Rule(SoilTemperature, AnyNumber),
    Rule(NitrogenLevel, AtLeast(0.0)),
    Rule(PhosphorusLevel, AtLeast(0.0)),
    Rule(PotassiumLevel, AtLeast(0.0)),
    Rule(OrganicMatter, Between(0.0, 100.0)),
    Rule(Rainfall, AtLeast(0.0)),
    Rule(Humidity, Between(0.0, 100.0)),
    Rule(SunshineHours, Between(0.0, 24.0))
  ]

  /** The form's defaults, which reset restores. */
  const DefaultValues := FormValues("wheat", 6.5, 35.0, 22.0, 120.0, 45.0, 80.0, 3.0, 25.0, 65.0, 6.0)

  function Get(v: FormValues, f: Field): Value {
    match f
    case CropType => TextValue(v.cropType)
    case SoilPh => Number(v.soilPh)
    case SoilMoisture => Number(v.soilMoisture)
    case SoilTemperature => Number(v.soilTemperature)
    case NitrogenLevel => Number(v.nitrogenLevel)
    case PhosphorusLevel => Number(v.phosphorusLevel)
    case PotassiumLevel => Number(v.potassiumLevel)
    case OrganicMatter => Number(v.organicMatter)
    case Rainfall => Number(v.rainfall)
    case Humidity => Number(v.humidity)
    case SunshineHours => Number(v.sunshineHours)
  }

  predicate Satisfies(x: Value, c: Check) {
    match c
    case NonEmptyText => x.TextValue? && |x.text| >= 1
    case AnyNumber => x.Number?
    case AtLeast(lo) => x.Number? && lo <= x.number
    case Between(lo, hi) => x.Number? && lo <= x.number <= hi
  }

  /** Rule `r` holds of the record `v`. */
  predicate Holds(v: FormValues, r: Rule) {
    Satisfies(Get(v, r.field), r.check)
  }

  /** The fields whose rule fails, in the order of `rules`. */
  function Failing(v: FormValues, rules: seq<Rule>): (r: seq<Field>)
    ensures forall f :: f in r <==> exists i :: 0 <= i < |rules| && rules[i].field == f && !Holds(v, rules[i])
    ensures |r| == 0 <==> forall i :: 0 <= i < |rules| ==> Holds(v, rules[i])
    decreases |rules|
  {
    if |rules| == 0 then []
    else
      var rest := Failing(v, rules[1..]);
      assert forall i :: 1 <= i < |rules| ==> rules[i] == rules[1..][i - 1];
      if Holds(v, rules[0]) then rest else [rules[0].field] + rest
  }

  /** What the zod resolver decides: the record itself when every rule
      holds, otherwise the fields that fail (never none). */
  function Validate(v: FormValues): (r: Result<FormValues, seq<Field>>)
    ensures r.Success? <==> forall i :: 0 <= i < |Schema| ==> Holds(v, Schema[i])
    ensures r.Success? ==> r.value == v
    ensures r.Failure? ==> |r.error| >= 1
    ensures r.Failure? ==> forall f :: f in r.error <==> exists i :: 0 <= i < |Schema| && Schema[i].field == f && !Holds(v, Schema[i])
  {
    var bad := Failing(v, Schema);
    if |bad| == 0 then Success(v) else Failure(bad)
  }

  /** The schema stated field by field, written independently of the rule
      table. */
  predicate WithinRanges(v: FormValues) {
    && |v.cropType| >= 1
    && 0.0 <= v.soilPh <= 14.0
    && 0.0 <= v.soilMoisture <= 100.0
    && 0.0 <= v.nitrogenLevel
    && 0.0 <= v.phosphorusLevel
    && 0.0 <= v.potassiumLevel
    && 0.0 <= v.organicMatter <= 100.0
    && 0.0 <= v.rainfall
    && 0.0 <= v.humidity <= 100.0
    && 0.0 <= v.sunshineHours <= 24.0
  }

  /** The validator accepts exactly the records inside every field's range;
      the soil temperature is not constrained at all. */
  lemma ValidIffWithinRanges(v: FormValues)
    ensures Validate(v).Success? <==> WithinRanges(v)
  {
    if WithinRanges(v) {
      forall i | 0 <= i < |Schema|
        ensures Holds(v, Schema[i])
      {
      }
    } else {
      SchemaRuleFails(v);
    }
  }

  /** A record outside some range breaks the corresponding rule. */
  lemma SchemaRuleFails(v: FormValues)
    requires !WithinRanges(v)
    ensures exists i :: 0 <= i < |Schema| && !Holds(v, Schema[i])
  {
    if |v.cropType| < 1 { assert !Holds(v, Schema[0]); }
    else if !(0.0 <= v.soilPh <= 14.0) { assert !Holds(v, Schema[1]); }
    else if !(0.0 <= v.soilMoisture <= 100.0) { assert !Holds(v, Schema[2]); }
    else if !(0.0 <= v.nitrogenLevel) { assert !Holds(v, Schema[4]); }
    else if !(0.0 <= v.phosphorusLevel) { assert !Holds(v, Schema[5]); }
    else if !(0.0 <= v.potassiumLevel) { assert !Holds(v, Schema[6]); }
    else if !(0.0 <= v.organicMatter <= 100.0) { assert !Holds(v, Schema[7]); }
    else if !(0.0 <= v.rainfall) { assert !Holds(v, Schema[8]); }
    else if !(0.0 <= v.humidity <= 100.0) { assert !Holds(v, Schema[9]); }
    else { assert !Holds(v, Schema[10]); }
  }

  /** Nitrogen, phosphorus, potassium and rainfall have no upper bound and
      the soil temperature no bound at all: raising any of the first four,
      each by its own amount (possibly zero), or moving the temperature
      anywhere keeps a record within range valid. */
  lemma UnboundedFields(v: FormValues, n: real, p: real, k: real, rain: real, temperature: real)
    requires WithinRanges(v) && n >= 0.0 && p >= 0.0 && k >= 0.0 && rain >= 0.0
    ensures Validate(v.(nitrogenLevel := v.nitrogenLevel + n,
                        phosphorusLevel := v.phosphorusLevel + p,
                        potassiumLevel := v.potassiumLevel + k,
                        rainfall := v.rainfall + rain,
                        soilTemperature := temperature)).Success?
  {
    var w := v.(nitrogenLevel := v.nitrogenLevel + n,
                phosphorusLevel := v.phosphorusLevel + p,
                potassiumLevel := v.potassiumLevel + k,
                rainfall := v.rainfall + rain,
                soilTemperature := temperature);
    ValidIffWithinRanges(v);
    ValidIffWithinRanges(w);
  }

  /** The Reset button: the form holds the defaults again, whatever it held,
      and they pass validation. */
  function Reset(current: FormValues): (r: FormValues)
    ensures r == DefaultValues
    ensures Validate(r).Success?
    ensures WithinRanges(r)
  {
    ValidIffWithinRanges(DefaultValues);
    DefaultValues
  }

  /** `Math.floor(u * n)` for a draw `u` of `Math.random()`: an integer in
      [0, n). */
  function Draw(u: real, n: nat): (k: int)
    requires 0.0 <= u < 1.0 && n >= 1
    ensures 0 <= k < n
  {
    (u * n as real).Floor
  }

  /** Every integer in [0, n) is drawn by some `u`, so the bounds of `Draw`
      are attained. */
  lemma DrawAttains(n: nat, k: nat)
    requires k < n
    ensures 0.0 <= k as real / n as real < 1.0
    ensures Draw(k as real / n as real, n) == k
  {
    var u := k as real / n as real;
    assert u * n as real == k as real;
  }

  /** The generated result: a yield in tonnes per hectare, a confidence in
      percent, and the submission time. */
  datatype PredictionResult = PredictionResult(yieldValue: int, confidence: int, timestamp: string)

  /** What a submission leaves in storage for the results page. */
  datatype Prediction = Prediction(data: FormValues, result: PredictionResult)

  datatype SubmitError = NotSignedIn | Invalid(fields: seq<Field>)

  /** What the page renders for the current session. */
  function Screen(auth: Auth.AuthState): (g: Auth.Gate)
    ensures g.Denied? <==> !Auth.IsAuthenticated(auth)
    ensures g.Denied? ==> g.notice == NoticeText
  {
    Auth.Guard(auth, NoticeText)
  }

  /** Submitting the form: unreachable without a session (the page shows
      only its notice), held back by the resolver when a rule fails, and
      otherwise storing the validated record with the yield
      `floor(u1 * 50) + 30` and confidence `floor(u2 * 15) + 85`. */
  function Submit(auth: Auth.AuthState, v: FormValues, yieldDraw: real, confidenceDraw: real, now: string)
    : (r: Result<Prediction, SubmitError>)
    requires 0.0 <= yieldDraw < 1.0 && 0.0 <= confidenceDraw < 1.0
    ensures r.Success? <==> Auth.IsAuthenticated(auth) && WithinRanges(v)
    ensures !Auth.IsAuthenticated(auth) ==> r == Failure(NotSignedIn)
    ensures Auth.IsAuthenticated(auth) && !WithinRanges(v) ==> r.Failure? && r.error.Invalid?
    ensures r.Failure? && r.error.Invalid? ==> Validate(v) == Failure(r.error.fields)
    ensures r.Success? ==> r.value.data == v && r.value.result.timestamp == now
    ensures r.Success? ==> 30 <= r.value.result.yieldValue <= 79
    ensures r.Success? ==> 85 <= r.value.result.confidence <= 99
  {
    ValidIffWithinRanges(v);
    match Screen(auth)
    case Denied(_) => Failure(NotSignedIn)
    case Granted(_) =>
      match Validate(v)
      case Failure(fields) => Failure(Invalid(fields))
      case Success(data) =>
        Success(Prediction(data, PredictionResult(Draw(yieldDraw, 50) + 30, Draw(confidenceDraw, 15) + 85, now)))
  }

  /** The extremes the generator can produce are 30 and 79 for the yield and
      85 and 99 for the confidence: the 80 and 100 named in the source's
      comments at Predict.tsx:73-74 never occur. */
  lemma ResultExtremes(auth: Auth.AuthState, v: FormValues, now: string)
    requires Auth.IsAuthenticated(auth) && WithinRanges(v)
    ensures var low := Submit(auth, v, 0.0, 0.0, now);
      low.Success? && low.value.result.yieldValue == 30 && low.value.result.confidence == 85
    ensures var high := Submit(auth, v, 49.0 / 50.0, 14.0 / 15.0, now);
      high.Success? && high.value.result.yieldValue == 79 && high.value.result.confidence == 99
  {
    DrawAttains(50, 49);
    DrawAttains(15, 14);
  }

  /** The defaults satisfy every rule. */
  lemma DefaultsValid()
    ensures Validate(DefaultValues) == Success(DefaultValues)
  {
    ValidIffWithinRanges(DefaultValues);
  }
}
