/** The six-step wizard that records a new parcel (src/pages/AddParcel.tsx):
    the required keys of each step, the typing of the inputs, the step
    counter, and the submission with its form reset. */
module AddParcel {
  import opened Text
  import opened Values
  import ParcelStore

  const TotalSteps := 6

  /** The keys step `s` requires; a step without a list requires none. */
  function StepRequired(s: int): (keys: seq<string>)
    ensures |keys| > 0 <==> 1 <= s <= TotalSteps
    ensures forall i :: 0 <= i < |keys| ==> keys[i] in ParcelStore.ParcelRequired
  {
    match s
    case 1 => ["parcel_number"]
    case 2 => ["province", "territory_or_city", "commune_or_sector", "quartier_or_cheflieu", "avenue"]
    case 3 => ["area", "status", "land_use"]
    case 4 => ["title_date", "acquisition_type", "acquisition_act_ref"]
    case 5 => ["owner_name", "owner_id_number"]
    case 6 => ["surveying_pv_ref", "surveyor_name", "surveyor_license"]
    case _ => []
  }

  /** What `validateStep(s)` decides: no key of the step is missing and, on
      the third step, the area is a number. */
  predicate StepValid(f: Obj, s: int) {
    FirstMissing(f, StepRequired(s)).None? && (s == 3 ==> Get(f, "area").Number?)
  }

  /** The keys the steps require are exactly the keys the server requires. */
  lemma StepsCoverServerKeys(k: string)
    ensures k in ParcelStore.ParcelRequired <==> exists s :: 1 <= s <= TotalSteps && k in StepRequired(s)
  {
    if k in ParcelStore.ParcelRequired {
      var s := if k == "parcel_number" then 1
               else if k in StepRequired(2) then 2
               else if k in StepRequired(3) then 3
               else if k in StepRequired(4) then 4
               else if k in StepRequired(5) then 5
               else 6;
      assert k in StepRequired(s);
    }
  }

  /** A form passes all six steps exactly when it passes the server's
      required-field and numeric-area checks, so the wizard never sends a
      form that the server answers with a 400. */
  lemma AllStepsIffServerChecks(f: Obj)
    ensures (forall s :: 1 <= s <= TotalSteps ==> StepValid(f, s)) <==>
              FirstMissing(f, ParcelStore.ParcelRequired).None? && Get(f, "area").Number?
  {
    if forall s :: 1 <= s <= TotalSteps ==> StepValid(f, s) {
      forall k | k in ParcelStore.ParcelRequired ensures !IsMissing(Get(f, k)) {
        StepsCoverServerKeys(k);
        var s :| 1 <= s <= TotalSteps && k in StepRequired(s);
        assert StepValid(f, s);
      }
      FirstMissingNamesAKey(f, ParcelStore.ParcelRequired);
      assert StepValid(f, 3);
    }
    if FirstMissing(f, ParcelStore.ParcelRequired).None? && Get(f, "area").Number? {
      forall s | 1 <= s <= TotalSteps ensures StepValid(f, s) {
        FirstMissingNamesAKey(f, StepRequired(s));
      }
    }
  }

  /** The server's answer to a body that passes every step is never a 400;
      when its values bind and its id and reference are fresh, it is a 201
      with the new row. The body is the form as the server receives it: an
      infinite area is sent as `null`, and then it no longer passes step 3. */
  lemma ValidFormNotRejectedAsInvalid(t: ParcelStore.Table, f: Obj, uuid: string, id: string, now: string)
    requires forall s :: 1 <= s <= TotalSteps ==> StepValid(f, s)
    ensures var r := ParcelStore.CreateParcelReply(t, f, uuid, id, now);
            r.Failure? ==> r.status in {409, 500}
    ensures var ref := ParcelStore.ReferenceFor(f, uuid);
            var row := ParcelStore.NewRow(f, ref, id, now);
            row.Some? && id !in t && !ParcelStore.ReferenceTaken(t, ref) ==>
              ParcelStore.CreateParcelReply(t, f, uuid, id, now) == ParcelStore.Success(201, row.value)
  {
    AllStepsIffServerChecks(f);
  }

  /** The inputs whose text is read as a number. */
  const NumericFields: set<string> := {"area", "gps_lat", "gps_long"}

  /** The value `handleChange` stores for input `name` with text `value`:
      for a numeric input, `parseFloat(value) || 0`, that is the parsed number
      unless it is falsy (0 or NaN), and then 0; otherwise the text. */
  function InputValue(name: string, value: string, parseFloat: string -> Num): (v: Value)
    ensures name in NumericFields ==> v.Number? && !v.n.NaN?
    ensures name in NumericFields && Truthy(Number(parseFloat(value))) ==> v == Number(parseFloat(value))
    ensures name in NumericFields && !Truthy(Number(parseFloat(value))) ==> v == Number(Finite(0.0))
    ensures name !in NumericFields ==> v == Str(value)
  {
    if name in NumericFields then
      var n := parseFloat(value);
      if n == NaN || n == Finite(0.0) then Number(Finite(0.0)) else Number(n)
    else Str(value)
  }

  /** The twenty-three keys of the initial form state, in the order they are declared. */
  const FormKeys: seq<string> := [
    "reference", "parcel_number", "province", "territory_or_city", "commune_or_sector", "quartier_or_cheflieu",
    "avenue", "gps_lat", "gps_long", "area", "status", "land_use", "certificate_number", "issuing_authority",
    "acquisition_type", "acquisition_act_ref", "title_date", "owner_name", "owner_id_number", "surveying_pv_ref",
    "surveyor_name", "surveyor_license", "cadastral_plan_ref"
  ]

  /** The initial value of an input: 0 for the numeric ones, the first choice
      of the three drop-down lists, the empty text otherwise. */
  function InitialValue(k: string): Value {
    if k in NumericFields then Number(Finite(0.0))
    else if k == "status" then Str("Libre")
    else if k == "land_use" then Str("Résidentiel")
    else if k == "acquisition_type" then Str("Concession")
    else Str("")
  }

  /** The form the page starts with and returns to after a successful
      submission. */
  const InitialForm: Obj := FormWith(FormKeys)

  /** The form holding the initial value of each of `keys`. */
  function FormWith(keys: seq<string>): (f: Obj)
    ensures forall k :: k in f <==> k in keys
    ensures forall k :: k in f ==> f[k] == InitialValue(k)
  {
    map k | k in keys :: InitialValue(k)
  }

  /** Initial values have the types of their inputs. */
  lemma FormWithTyped(keys: seq<string>)
    ensures Typed(FormWith(keys))
  {
  }

  /** The shape every state of the form keeps: the numeric inputs hold
      numbers other than NaN and every other input holds text. */
  predicate Typed(f: Obj) {
    forall k :: k in f ==> if k in NumericFields then f[k].Number? && !f[k].n.NaN? else f[k].Str?
  }

  /** The initial form is typed. */
  lemma InitialFormTyped()
    ensures Typed(InitialForm)
  {
    FormWithTyped(FormKeys);
  }

  /** The initial form has every numeric input. */
  lemma InitialFormHasNumbers()
    ensures NumericFields <= InitialForm.Keys
  {
    assert "area" in FormKeys && "gps_lat" in FormKeys && "gps_long" in FormKeys;
  }

  /** A fresh wizard cannot leave the first step: the parcel number is empty. */
  lemma InitialFormStep1()
    ensures !StepValid(InitialForm, 1)
  {
    assert "parcel_number" in FormKeys;
    assert IsMissing(Get(InitialForm, "parcel_number"));
  }

  /** Storing an input keeps the form typed. */
  lemma InputKeepsTyped(f: Obj, name: string, value: string, parseFloat: string -> Num)
    requires Typed(f)
    ensures Typed(f[name := InputValue(name, value, parseFloat)])
  {
  }

  /** On a typed form that has the area, the third step's `typeof area`
      test always holds, and a missing key can only be a blank text. */
  lemma TypedFormFacts(f: Obj, k: string)
    requires Typed(f) && "area" in f
    ensures Get(f, "area").Number?
    ensures k in f && IsMissing(Get(f, k)) ==> f[k].Str? && IsBlank(f[k].s)
  {
  }

  function NextStep(s: int): (r: int)
    ensures r == Min(s + 1, TotalSteps)
    ensures 1 <= s <= TotalSteps ==> 1 <= r <= TotalSteps && s <= r
  {
    if s + 1 <= TotalSteps then s + 1 else TotalSteps
  }

  function PrevStep(s: int): (r: int)
    ensures r == Max(s - 1, 1)
    ensures 1 <= s <= TotalSteps ==> 1 <= r <= TotalSteps && r <= s
  {
    if s - 1 >= 1 then s - 1 else 1
  }

  /** Going back undoes going forward, except on the last step. */
  lemma PrevUndoesNext(s: int)
    requires 1 <= s < TotalSteps
    ensures PrevStep(NextStep(s)) == s
    ensures NextStep(PrevStep(s)) == s || s == 1
  {
  }

  datatype MessageKind = SuccessMessage | ErrorMessage

  datatype Message = Message(kind: MessageKind, text: string)

  const StepIncomplete := "Veuillez compléter les champs requis de cette étape."

  class Wizard {
    var formData: Obj
    var step: int
    var message: Option<Message>
    var loading: bool

    predicate Valid()
      reads this
    {
      1 <= step <= TotalSteps && Typed(formData) && NumericFields <= formData.Keys
    }

    constructor ()
      ensures Valid()
      ensures formData == InitialForm && step == 1 && message == None && !loading
    {
      InitialFormTyped();
      InitialFormHasNumbers();
      formData := InitialForm;
      step := 1;
      message := None;
      loading := false;
    }

    /** `handleChange`: only the input's key changes. */
    method HandleChange(name: string, value: string, parseFloat: string -> Num)
      requires Valid()
      modifies this
      ensures Valid()
      ensures formData == old(formData)[name := InputValue(name, value, parseFloat)]
      ensures unchanged(this`step, this`message, this`loading)
    {
      InputKeepsTyped(formData, name, value, parseFloat);
      formData := formData[name := InputValue(name, value, parseFloat)];
    }

    /** `validateStep(s)`: the loop over the step's keys, then the area test. */
    method ValidateStep(s: int) returns (ok: bool)
      ensures ok == StepValid(formData, s)
    {
      var missing := FindMissing(formData, StepRequired(s));
      if missing.Some? {
        return false;
      }
      if s == 3 && !Get(formData, "area").Number? {
        return false;
      }
      return true;
    }

    /** The "next" button: an incomplete step keeps the wizard where it is
        and says so; a complete one clears the message and moves on. */
    method HandleNext()
      requires Valid()
      modifies this
      ensures Valid()
      ensures StepValid(formData, old(step)) ==> step == NextStep(old(step)) && message == None
      ensures !StepValid(formData, old(step)) ==>
                step == old(step) && message == Some(Message(ErrorMessage, StepIncomplete))
      ensures unchanged(this`formData, this`loading)
    {
      var ok := ValidateStep(step);
      if !ok {
        message := Some(Message(ErrorMessage, StepIncomplete));
        return;
      }
      message := None;
      step := NextStep(step);
    }

    /** The "previous" button. */
    method HandlePrev()
      requires Valid()
      modifies this
      ensures Valid()
      ensures step == PrevStep(old(step)) && message == None
      ensures unchanged(this`formData, this`loading)
    {
      message := None;
      step := PrevStep(step);
    }

    /** `handleSubmit`, with the outcome of the awaited create call as a
        parameter; `posted` is the form it sends. A success empties the form
        back to its initial values; a failure keeps it and shows the error's
        message. The step does not change. */
    method HandleSubmit(outcome: Awaited<()>) returns (posted: Obj)
      requires Valid()
      modifies this
      ensures Valid()
      ensures posted == old(formData)
      ensures outcome.Resolved? ==>
                formData == InitialForm && message == Some(Message(SuccessMessage, "Parcelle enregistrée avec succès!"))
      ensures outcome.Rejected? ==>
                unchanged(this`formData) &&
                message == Some(Message(ErrorMessage, outcome.message.GetOr("Une erreur est survenue")))
      ensures !loading && unchanged(this`step)
    {
      loading := true;
      message := None;
      posted := formData;
      match outcome {
        case Resolved(_) =>
          message := Some(Message(SuccessMessage, "Parcelle enregistrée avec succès!"));
          InitialFormTyped();
          InitialFormHasNumbers();
          formData := InitialForm;
        case Rejected(m) =>
          message := Some(Message(ErrorMessage, m.GetOr("Une erreur est survenue")));
      }
      loading := false;
    }
  }
}
