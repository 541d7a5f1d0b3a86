/**
  The waste and compost modules: building the waste model's input row,
  aligning it to the columns the model was trained on, and the two session
  steps with their gating and their degraded-mode defaults (20% of the
  yield mass as waste, 60% of the waste as compost) when a model call raises.

  Amounts are real numbers; the estimators and their rescalers are opaque
  functions that either return a number or raise.
 */
module Waste {
  import opened Common
  import opened Session

  /** A one-row data frame: column name to value. */
  type Frame = map<string, real>

  /** A loaded estimator with its output rescaler. `fitted` is false for the
      fallback built when the model files cannot be loaded (main.py:50-58):
      an unfitted regressor raises on every prediction. `featureNames` is
      None when the estimator has no recorded input columns, so reading them
      raises; `predict` and `inverse` return None when the call raises. */
  datatype Estimator = Estimator(
    fitted: bool,
    featureNames: Option<seq<string>>,
    predict: seq<real> -> Option<real>,
    inverse: real -> Option<real>)

  const YieldColumn: string := "Yield_Amount_kg"
  const CropPrefix: string := "Crop_Type_"

  /** How a step ended: nothing written, the model's estimate written, or
      the fixed default written because a model call raised. */
  datatype Mode = Skipped | Predicted | Degraded

  datatype Step = Step(session: Store, mode: Mode)

  // ---------------------------------------------------------------------
  // Column alignment
  // ---------------------------------------------------------------------

  /** The set of column names of a list. */
  function Columns(names: seq<string>): (cols: set<string>)
    ensures forall c :: c in cols <==> exists i :: 0 <= i < |names| && names[i] == c
  {
    set i | 0 <= i < |names| :: names[i]
  }

  /** Every model column the frame lacks is added with value 0; the frame's
      own columns keep their values. */
  function AddMissing(f: Frame, names: seq<string>): (g: Frame)
    ensures g.Keys == f.Keys + Columns(names)
    ensures forall c :: c in f ==> g[c] == f[c]
    ensures forall c :: c in g && c !in f ==> g[c] == 0.0
  {
    map c | c in f.Keys + Columns(names) :: if c in f then f[c] else 0.0
  }

  /** Selecting a list of columns gives their values in the list's order. */
  function SelectColumns(g: Frame, names: seq<string>): (v: seq<real>)
    requires forall i :: 0 <= i < |names| ==> names[i] in g
    ensures |v| == |names|
    ensures forall i :: 0 <= i < |names| ==> v[i] == g[names[i]]
  {
    if names == [] then [] else [g[names[0]]] + SelectColumns(g, names[1..])
  }

  /** The aligned input row: exactly the model's columns, in the model's
      order; a column the frame has keeps its value, any other is 0, and
      frame columns the model does not know are dropped. */
  function Align(f: Frame, names: seq<string>): (v: seq<real>)
    ensures |v| == |names|
    ensures forall i :: 0 <= i < |names| ==> v[i] == (if names[i] in f then f[names[i]] else 0.0)
  {
    var g := AddMissing(f, names);
    assert forall i :: 0 <= i < |names| ==> names[i] in Columns(names);
    SelectColumns(g, names)
  }

  /** Only the model's columns of the frame matter to the aligned row. */
  lemma AlignReadsOnlyModelColumns(f1: Frame, f2: Frame, names: seq<string>)
    requires forall i :: 0 <= i < |names| ==> (names[i] in f1 <==> names[i] in f2)
    requires forall i :: 0 <= i < |names| && names[i] in f1 ==> f1[names[i]] == f2[names[i]]
    ensures Align(f1, names) == Align(f2, names)
  {
  }

  // ---------------------------------------------------------------------
  // The waste model's input frame
  // ---------------------------------------------------------------------

  /** The frame as the program builds it: one-hot encoding a one-row crop
      column with the first category dropped drops the only category, so
      only the yield column is left and the crop is lost. */
  function WasteFrameAsWritten(crop: string, kg: real): (f: Frame)
    ensures f.Keys == {YieldColumn} && f[YieldColumn] == kg
  {
    map[YieldColumn := kg]
  }

  /** Which waste input frame a run builds: the one the program builds, or
      the one its one-hot encoding is meant to give. */
  datatype Encoding = AsWritten | OneHot

  /** The data frame handed to alignment under the given encoding. */
  function WasteInput(enc: Encoding, crop: string, kg: real): (f: Frame)
    ensures YieldColumn in f && f[YieldColumn] == kg
  {
    match enc
    case AsWritten => WasteFrameAsWritten(crop, kg)
    case OneHot => WasteFrame(crop, kg)
  }

  /** The frame the encoding is meant to give: the yield column and the
      crop's indicator column set to 1. */
  function WasteFrame(crop: string, kg: real): (f: Frame)
    ensures f.Keys == {YieldColumn, CropPrefix + crop}
    ensures f[YieldColumn] == kg && f[CropPrefix + crop] == 1.0
  {
    assert (CropPrefix + crop)[0] == 'C' != YieldColumn[0];
    map[YieldColumn := kg, CropPrefix + crop := 1.0]
  }

  /** As written, the aligned row carries the yield and is 0 in every other
      column, so it is the same whatever crop was recommended. */
  lemma CropIgnoredAsWritten(crop1: string, crop2: string, kg: real, names: seq<string>)
    ensures Align(WasteFrameAsWritten(crop1, kg), names) == Align(WasteFrameAsWritten(crop2, kg), names)
    ensures forall i :: 0 <= i < |names| && names[i] != YieldColumn
              ==> Align(WasteFrameAsWritten(crop1, kg), names)[i] == 0.0
  {
  }

  /** As written, recommending "Rice" with a yield of 2 tonnes gives a row
      whose "Crop_Type_Rice" column is 0 even when the model has that column. */
  lemma RiceColumnZeroAsWritten(names: seq<string>, i: nat)
    requires i < |names| && names[i] == "Crop_Type_Rice"
    ensures Align(WasteFrameAsWritten("Rice", 2.0 * 1000.0), names)[i] == 0.0
  {
  }

  /** With the intended frame the aligned row carries the yield, sets the
      recommended crop's column to 1 when the model has it, and is 0 in every
      other column (the crop dropped as the first category shows as all 0). */
  lemma CropIndicatorAligned(crop: string, kg: real, names: seq<string>)
    ensures var v := Align(WasteFrame(crop, kg), names);
            forall i :: 0 <= i < |names| ==>
              v[i] == (if names[i] == YieldColumn then kg
                       else if names[i] == CropPrefix + crop then 1.0
                       else 0.0)
  {
    assert (CropPrefix + crop)[0] == 'C' != YieldColumn[0];
  }

  /** "Rice" with a yield of 2 tonnes: 2000 kg in the yield column and 1 in
      the "Crop_Type_Rice" column. */
  lemma RiceRowAligned(names: seq<string>, i: nat, j: nat)
    requires i < |names| && names[i] == YieldColumn
    requires j < |names| && names[j] == "Crop_Type_Rice"
    ensures Align(WasteFrame("Rice", 2.0 * 1000.0), names)[i] == 2000.0
    ensures Align(WasteFrame("Rice", 2.0 * 1000.0), names)[j] == 1.0
  {
    assert CropPrefix + "Rice" == "Crop_Type_Rice";
    CropIndicatorAligned("Rice", 2000.0, names);
  }

  // ---------------------------------------------------------------------
  // Model calls
  // ---------------------------------------------------------------------

  /** The waste estimate in kilograms, or None when any call inside the
      protected block raises: reading the model's feature names, predicting
      on the aligned row, or rescaling the prediction. */
  function PredictWaste(est: Estimator, enc: Encoding, crop: string, kg: real): (w: Option<real>)
    ensures !est.fitted || est.featureNames.None? ==> w.None?
    ensures w.Some? ==> exists scaled ::
              est.predict(Align(WasteInput(enc, crop, kg), est.featureNames.value)) == Some(scaled)
              && est.inverse(scaled) == w
    ensures est.fitted && est.featureNames.Some?
            && est.predict(Align(WasteInput(enc, crop, kg), est.featureNames.value)).Some? ==>
              w == est.inverse(est.predict(Align(WasteInput(enc, crop, kg), est.featureNames.value)).value)
  {
    if !est.fitted || est.featureNames.None? then None
    else
      match est.predict(Align(WasteInput(enc, crop, kg), est.featureNames.value))
      case None => None
      case Some(scaled) => est.inverse(scaled)
  }

  /** With the input as written, the waste estimate is the same whatever crop
      was recommended. */
  lemma AsWrittenWasteIgnoresCrop(est: Estimator, crop1: string, crop2: string, kg: real)
    ensures PredictWaste(est, AsWritten, crop1, kg) == PredictWaste(est, AsWritten, crop2, kg)
  {
    if est.featureNames.Some? {
      CropIgnoredAsWritten(crop1, crop2, kg, est.featureNames.value);
    }
  }

  /** The compost settings read from the number inputs. */
  datatype CompostSettings = CompostSettings(moisture: real, temperature: real, aeration: real, weeks: real)

  /** The compost estimate in kilograms, or None when a call raises. The
      input row is the waste amount followed by the four settings. */
  function PredictCompost(est: Estimator, waste: real, c: CompostSettings): (y: Option<real>)
    ensures !est.fitted ==> y.None?
    ensures y.Some? ==> exists scaled ::
              est.predict([waste, c.moisture, c.temperature, c.aeration, c.weeks]) == Some(scaled)
              && est.inverse(scaled) == y
    ensures est.fitted && est.predict([waste, c.moisture, c.temperature, c.aeration, c.weeks]).Some? ==>
              y == est.inverse(est.predict([waste, c.moisture, c.temperature, c.aeration, c.weeks]).value)
  {
    if !est.fitted then None
    else
      match est.predict([waste, c.moisture, c.temperature, c.aeration, c.weeks])
      case None => None
      case Some(scaled) => est.inverse(scaled)
  }

  // ---------------------------------------------------------------------
  // Session steps
  // ---------------------------------------------------------------------

  /** The waste module is offered only once a crop was recommended and a
      yield predicted: both cache entries are present and not None, so the
      step's reads of them cannot miss. */
  predicate WasteReady(s: Store)
    ensures WasteReady(s) ==> TopCrops in s && PredictedYield in s
    ensures WasteReady(s) <==> Get(s, TopCrops) != Nothing && Get(s, PredictedYield) != Nothing
  {
    IsSet(s, TopCrops) && IsSet(s, PredictedYield)
  }

  /** The waste module. Unless both the top crops and the yield are cached
      (the page shows a warning) or unless the button is pressed, nothing
      changes. Otherwise the first recommended crop and the yield converted
      to kilograms go to the waste model; its estimate is stored, or, when a
      call raises, 20% of the yield mass. A cache entry of an unexpected
      shape makes the step raise. */
  function WasteStep(s: Store, pressed: bool, est: Estimator, enc: Encoding): (r: Result<Step>)
    ensures r.Ok? ==> SameOutside(s, r.value.session, {WastePred})
    ensures r.Ok? && r.value.mode == Skipped ==> r.value.session == s
    ensures (!WasteReady(s) || !pressed) ==> r == Ok(Step(s, Skipped))
    ensures r.Ok? && r.value.mode != Skipped ==>
              && pressed && WasteReady(s)
              && s[TopCrops].Texts? && |s[TopCrops].items| > 0 && s[PredictedYield].Number?
              && WastePred in r.value.session && r.value.session[WastePred].Number?
    ensures r.Ok? && r.value.mode == Degraded ==>
              r.value.session[WastePred] == Number(s[PredictedYield].x * 1000.0 * 0.2)
    ensures r.Ok? && r.value.mode == Predicted ==>
              Some(r.value.session[WastePred].x)
                == PredictWaste(est, enc, s[TopCrops].items[0], s[PredictedYield].x * 1000.0)
    ensures WellTyped(s) ==> r.Ok? && WellTyped(r.value.session)
    ensures WellTyped(s) && pressed && WasteReady(s) ==> r.value.mode != Skipped
    ensures WellTyped(s) && pressed && WasteReady(s) ==>
              var kg := s[PredictedYield].x * 1000.0;
              (r.value.mode == Predicted <==> PredictWaste(est, enc, s[TopCrops].items[0], kg).Some?)
  {
    if !WasteReady(s) || !pressed then Ok(Step(s, Skipped))
    else if !(s[TopCrops].Texts? && |s[TopCrops].items| > 0 && s[PredictedYield].Number?) then
      Err("unexpected cache entry")
    else
      var crop := s[TopCrops].items[0];
      var kg := s[PredictedYield].x * 1000.0;
      match PredictWaste(est, enc, crop, kg)
      case Some(w) => Ok(Step(s[WastePred := Number(w)], Predicted))
      case None => Ok(Step(s[WastePred := Number(kg * 0.2)], Degraded))
  }

  /** The compost module. Nothing changes unless the button is pressed and a
      waste estimate is cached. Otherwise the cached waste and the settings
      go to the compost model; its estimate is stored, or, when a call
      raises, 60% of the waste. */
  function CompostStep(s: Store, pressed: bool, c: CompostSettings, est: Estimator): (r: Result<Step>)
    ensures r.Ok? ==> SameOutside(s, r.value.session, {CompostYield})
    ensures r.Ok? && r.value.mode == Skipped ==> r.value.session == s
    ensures (!pressed || WastePred !in s) ==> r == Ok(Step(s, Skipped))
    ensures r.Ok? && r.value.mode != Skipped ==>
              && pressed && WastePred in s && s[WastePred].Number?
              && CompostYield in r.value.session && r.value.session[CompostYield].Number?
    ensures r.Ok? && r.value.mode == Degraded ==>
              r.value.session[CompostYield] == Number(s[WastePred].x * 0.6)
    ensures r.Ok? && r.value.mode == Predicted ==>
              Some(r.value.session[CompostYield].x) == PredictCompost(est, s[WastePred].x, c)
    ensures WellTyped(s) ==> r.Ok? && WellTyped(r.value.session)
    ensures WellTyped(s) && pressed && WastePred in s ==> r.value.mode != Skipped
    ensures WellTyped(s) && pressed && WastePred in s ==>
              (r.value.mode == Predicted <==> PredictCompost(est, s[WastePred].x, c).Some?)
  {
    if !pressed || WastePred !in s then Ok(Step(s, Skipped))
    else if !s[WastePred].Number? then Err("unexpected cache entry")
    else
      var waste := s[WastePred].x;
      match PredictCompost(est, waste, c)
      case Some(y) => Ok(Step(s[CompostYield := Number(y)], Predicted))
      case None => Ok(Step(s[CompostYield := Number(waste * 0.6)], Degraded))
  }

  /** Pressing the waste button again recomputes the same estimate: the step
      reads only entries it does not write. */
  lemma WasteStepRepeatable(s: Store, est: Estimator, enc: Encoding)
    requires WellTyped(s)
    ensures var once := WasteStep(s, true, est, enc).value.session;
            WasteStep(once, true, est, enc).value.session == once
  {
  }

  /** With the unfitted fallback estimators both modules always store their
      defaults once they run. */
  lemma UnfittedFallbackDegrades(s: Store, wasteModel: Estimator, compostModel: Estimator,
                                 enc: Encoding, c: CompostSettings)
    requires WellTyped(s) && WasteReady(s)
    requires !wasteModel.fitted && !compostModel.fitted
    ensures WasteStep(s, true, wasteModel, enc).value.mode == Degraded
    ensures CompostStep(WasteStep(s, true, wasteModel, enc).value.session, true, c, compostModel).value.mode
            == Degraded
  {
  }

  /** A predicted yield of 2 tonnes with the unfitted fallback models stores
      400 kg of waste, and then 240 kg of compost. */
  lemma DegradedDefaultsExample(s: Store, est: Estimator, enc: Encoding, c: CompostSettings)
    requires WellTyped(s) && WasteReady(s) && s[PredictedYield] == Number(2.0)
    requires !est.fitted
    ensures WasteStep(s, true, est, enc).value.session[WastePred] == Number(400.0)
    ensures CompostStep(WasteStep(s, true, est, enc).value.session, true, c, est).value.session[CompostYield]
              == Number(240.0)
  {
  }

  /** When both models fail, the compost stored is 12% of the yield mass: the
      waste default (20% of the yield in kilograms) feeds the compost default
      (60% of the waste). */
  lemma DegradedChain(s: Store, wasteModel: Estimator, compostModel: Estimator, enc: Encoding,
                      c: CompostSettings)
    requires WellTyped(s) && WasteReady(s)
    requires WasteStep(s, true, wasteModel, enc).value.mode == Degraded
    requires CompostStep(WasteStep(s, true, wasteModel, enc).value.session, true, c, compostModel).value.mode
             == Degraded
    ensures CompostStep(WasteStep(s, true, wasteModel, enc).value.session, true, c, compostModel)
              .value.session[CompostYield] == Number(s[PredictedYield].x * 120.0)
  {
  }

  /** Switching the language never withdraws the waste module: the cache it
      reads is left alone by the reset. */
  lemma LanguageResetKeepsWasteReady(s: Store, lang: Localization.Language)
    requires PrevLanguage in s
    ensures WasteReady(LanguageReset(s, lang)) <==> WasteReady(s)
    ensures WellTyped(LanguageReset(s, lang)) <==> WellTyped(s)
  {
    LanguageResetKeepsModuleCache(s, lang, TopCrops);
    LanguageResetKeepsModuleCache(s, lang, PredictedYield);
    LanguageResetKeepsModuleCache(s, lang, WastePred);
    LanguageResetKeepsModuleCache(s, lang, CompostYield);
  }
}
