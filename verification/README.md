# Crop dashboard decision logic in Dafny

This project models the decision logic of a multilingual crop-advisory
dashboard (`main.py`), leaving out its user interface. The model covers:

- **Localization.** It models the label lookup with its fallback to the key. It models
  option translation, whose resolution order is: exact match on the stripped
  option, then the first row equal ignoring case, then the option itself. It
  also models the reverse maps built with `dict(zip(translated, canonical))`,
  which turn a displayed label back into a canonical name.
- **Option tables.** The state, season and crop tables are written out
  in full with their Tamil and Hindi texts. The model proves that two pairs of
  rows share one Tamil text: Autumn/Winter and Coriander/Rapeseed &Mustard.
  Because the last pair inserted wins, "Autumn" cannot be chosen in Tamil
  when the season select box lists it once with a Winter class after it,
  and "Coriander" likewise when the crop select box lists it once with a
  Rapeseed &Mustard class after it (as the sorted encoder classes would put
  them). The crop list is the model's class labels, so whether both crops
  are present depends on the training data.
- **Session.** The session store is a map from keys to values. This part covers the
  start-of-run initialisation. It also covers the reset on a language change, which
  forgets exactly the three select-box choices.
- **Ranking.** This is the top-3 recommendation `np.argsort(p)[-3:][::-1]`. It gives
  distinct classes in rank order, and no class that is left out is more probable
  than the last one listed. A ranking of a given length is unique.
- **Waste.** This part models column alignment against a model's feature names.
  It also models the waste and compost steps: each one is gated on the session,
  calls the estimator, stores its estimate when every call succeeds, and
  otherwise falls back to 20% of the yield in kg for waste and 60% of the
  waste for compost. The waste input frame is a parameter (`Waste.Encoding`):
  `AsWritten` builds the frame as the program does, and `OneHot` builds the
  frame its one-hot encoding is meant to give (see Findings).

Estimators are parameters: a fitted flag, the recorded feature names, a
partial `predict` and a partial inverse scaling. The classifier's probability vector is an input to the ranking.
Button presses are boolean inputs.

Files:
- `common.dfy` holds `Option` and `Result`.
- `localization.dfy` holds the lookup, strip, translation and reverse maps.
- `option_tables.dfy` holds the three option tables and the collisions.
- `session.dfy` holds the session store and the language reset.
- `ranking.dfy` holds the top-3 selection.
- `waste.dfy` holds alignment and the waste and compost steps.

## Model

| member | source | states |
|---|---|---|
| Localization.Language.Code | main.py:96 | Each language has its own code: "en" for English, "ta" for Tamil, "hi" for Hindi |
| Localization.Language.Name | main.py:75-79 | Each language has its own radio label: "English", "Tamil" or "Hindi" |
| Localization.Translation | main.py:350-356 | Returns the stored text when the section, the key and the language all exist, and returns the key itself otherwise |
| Localization.TranslationIsFlatLookup | main.py:350-356 | The nested lookup with fallback is a single lookup in the flattened table keyed by (section, key, language), with the key as default |
| Localization.Strip | main.py:367 | Leaves a contiguous slice of the input with no whitespace at either end, where only whitespace was removed on each side |
| Localization.StripIdempotent | main.py:367 | Stripping twice gives the same as stripping once |
| Localization.StripIdentity | main.py:367 | A string with no whitespace at either end is unchanged by stripping |
| Localization.FindCaseless | main.py:379-383 | Finds the first row in table (insertion) order whose name equals the key ignoring case, or reports that no row does |
| Localization.Lower | main.py:380 | Case folding as `str.lower()` does on ASCII: the same length, every upper-case ASCII letter replaced by its lower-case form, every other character kept |
| Localization.FindExact | main.py:375 | The exact key lookup finds the first row whose name is the key, and finds nothing exactly when no row has that name |
| Localization.TranslateOption | main.py:364-387 | A translation that succeeds is the option itself or a text of the table; one that raises does so only when a row equal to the stripped option ignoring case lacks the language |
| Localization.ResolveExact | main.py:367-375 | A row whose name equals the stripped option and that has a text for the language decides the translation |
| Localization.ResolveCaseless | main.py:376-383 | With no exact row that has a text, the earliest row equal ignoring case decides, and the call raises when that row lacks the language |
| Localization.ResolveUniqueCaseless | main.py:367-383 | When one row alone equals the stripped option ignoring case, that row's text is the translation, whether the option matches it exactly or only up to case and surrounding whitespace |
| Localization.ResolveUntouched | main.py:385-387 | With no row equal ignoring case, the original unstripped option is returned |
| Localization.TranslateOptionTotal | main.py:364-387 | When every row has the language, translation never raises, and it yields either the option itself or a text of the table |
| Localization.TranslateAll | main.py:363-388 | The list succeeds exactly when every option translates, and then it translates each option in its own position |
| Localization.TranslatedOptions | main.py:358-388 | English returns the options unchanged; other languages translate pointwise, and fail exactly when some option fails |
| Localization.TranslatedOptionsTotal | main.py:358-388 | A table that covers the language always yields a list of the same length |
| Localization.TranslatedOptionsPointwise | main.py:363-388 | A translated label depends only on its own option, not on the other options in the list |
| Localization.ReverseMap | main.py:573 | The keys are the labels of the zipped prefix; each label maps to the canonical name paired with its last occurrence, and nothing else is in the map |
| Localization.ZipInsertKeys | main.py:573 | After inserting n pairs, the keys are exactly the first n labels |
| Localization.ZipInsertLast | main.py:585 | A label maps to the name paired with its last occurrence |
| Localization.ZipInsertFrom | main.py:676 | Every entry of the map comes from the last occurrence of its label |
| Localization.ReverseMapResolvesShown | main.py:576-580 | Every label the select box shows is a key of the reverse map, so the lookup cannot raise |
| Localization.ShadowedUnreachable | main.py:585 | A canonical name that occurs once, at a label shown again later, is not a value of the reverse map |
| OptionTables.TablesCoverTamilAndHindi | main.py:246-336 | Every state, season and crop row has a Tamil and a Hindi text |
| OptionTables.AutumnCaselessUnique | main.py:279-286 | No season row other than Autumn equals "Autumn" ignoring case |
| OptionTables.WinterCaselessUnique | main.py:279-286 | No season row other than Winter equals "Winter" ignoring case |
| OptionTables.CorianderCaselessUnique | main.py:287-335 | No crop row other than Coriander equals "Coriander" ignoring case |
| OptionTables.RapeseedCaselessUnique | main.py:287-335 | No crop row other than Rapeseed &Mustard equals "Rapeseed &Mustard" ignoring case |
| OptionTables.AutumnRowFacts | main.py:280 | The Autumn row carries the Tamil text குளிர்காலம் |
| OptionTables.WinterRowFacts | main.py:285 | The Winter row carries the same Tamil text as Autumn |
| OptionTables.CorianderRowFacts | main.py:298 | The Coriander row carries the Tamil text கொத்தமல்லி |
| OptionTables.RapeseedRowFacts | main.py:321 | The Rapeseed &Mustard row carries the same Tamil text as Coriander |
| OptionTables.AutumnLabel | main.py:280 | Every option that strips and case-folds to "Autumn" is shown in Tamil as குளிர்காலம் |
| OptionTables.WinterLabel | main.py:285 | Every option that strips and case-folds to "Winter" is shown in Tamil as the same word |
| OptionTables.AutumnWinterCollide | main.py:279-286 | Any spelling of Autumn and any spelling of Winter translate to the same Tamil label |
| OptionTables.CorianderLabel | main.py:298 | Every option that strips and case-folds to "Coriander" is shown in Tamil as கொத்தமல்லி |
| OptionTables.RapeseedLabel | main.py:321 | Every option that strips and case-folds to "Rapeseed &Mustard" is shown in Tamil as the same word |
| OptionTables.CorianderRapeseedCollide | main.py:287-335 | Any spelling of Coriander and any spelling of Rapeseed &Mustard translate to the same Tamil label |
| OptionTables.TamilAutumnUnreachable | main.py:583-585 | Whenever a class that strips and case-folds to Winter is listed after a class that does so to Autumn, and the Autumn class occurs once, the Tamil season map has no entry that yields the Autumn class |
| OptionTables.TamilCorianderUnreachable | main.py:672-676 | The same for crops: a once-listed Coriander class followed by a Rapeseed &Mustard class, in any spelling that strips and case-folds to them, is never yielded by the Tamil crop map |
| Session.StartRun | main.py:16-17 | English is remembered only when no language is remembered yet; nothing else changes |
| Session.InitModules | main.py:435-442 | Missing top crops, yield and input entries start as None, and missing explanations start as an empty dictionary; present entries and all other keys are kept |
| Session.InitModulesIdempotent | main.py:435-442 | Initialising a second time changes nothing |
| Session.LanguageReset | main.py:81-85 | The new language is remembered. If it was already remembered, nothing changes; otherwise exactly the three select-box keys are removed and nothing else changes |
| Session.LanguageResetIdempotent | main.py:81-85 | A second reset for the same language changes nothing |
| Session.FreshSessionReset | main.py:16-17 | A fresh session keeps its selections in English and drops them in any other language |
| Session.LanguageResetKeepsModuleCache | main.py:81-85 | Any key other than the language and the three selections keeps its presence and value across a reset |
| Ranking.Top3 | main.py:471-472 | Returns min(3, n) distinct classes with non-increasing probabilities. The first is the most probable, and no unselected class is more probable than the last one listed |
| Ranking.RankedUnique | main.py:472 | Two rank-ordered selections of the same length are equal, so the result of the top-3 selection is determined |
| Ranking.Recommend | main.py:466-523 | The session stores the input record, the class names and probabilities of the top three (best first), and one explanation image for each recommended crop and no other; every other key is unchanged, and a well-typed session stays well-typed whenever there is at least one class |
| Waste.AddMissing | main.py:711-713 | Every model column the frame lacks is added with the value 0; the frame's own columns keep their values |
| Waste.SelectColumns | main.py:714 | Selecting the model's columns gives one value per column, in the model's order |
| Waste.Align | main.py:711-714 | Yields one value per model feature in the model's order: the frame's value when the column is present, and 0 otherwise |
| Waste.AlignReadsOnlyModelColumns | main.py:714 | Alignment depends only on the columns the model knows |
| Waste.WasteFrameAsWritten | main.py:707-710 | The frame as written holds only the yield column, with the yield in kg |
| Waste.WasteFrame | main.py:707-710 | The intended frame holds the yield column with the yield in kg and the crop's own indicator column set to 1 |
| Waste.CropIgnoredAsWritten | main.py:707-714 | With the frame as written, the aligned input is the same whatever the crop, and every crop column is 0 |
| Waste.RiceColumnZeroAsWritten | main.py:707-714 | As written, Rice with 2 t of yield aligns to Crop_Type_Rice = 0 |
| Waste.CropIndicatorAligned | main.py:707-714 | With the intended one-hot frame, the crop's own column is 1, the yield column holds the kg value, and every other column is 0 |
| Waste.RiceRowAligned | main.py:707-714 | With the intended one-hot frame, Rice with 2 t of yield aligns to 2000 kg and Crop_Type_Rice = 1 |
| Waste.PredictWaste | main.py:706-720 | An unfitted estimator, or one without feature names, gives no estimate. Otherwise, when predicting on the aligned row succeeds, the estimate is exactly the rescaled prediction, and every estimate arises that way |
| Waste.AsWrittenWasteIgnoresCrop | main.py:707-720 | With the input as written, the waste estimate is the same whatever crop was recommended |
| Waste.PredictCompost | main.py:744-754 | An unfitted estimator gives no estimate. Otherwise, when predicting on the waste-and-settings row succeeds, the estimate is exactly the rescaled prediction, and every estimate arises that way |
| Waste.WasteReady | main.py:701-704 | The gate holds exactly when `get` of both the top crops and the predicted yield is not None, and then both keys are present, so the reads that follow cannot miss |
| Waste.WasteStep | main.py:701-726 | Runs only when pressed and when top crops and yield are set. It writes only the waste entry: the estimate exactly when the model gives one, otherwise 20% of yield×1000. The session stays well-typed |
| Waste.CompostStep | main.py:742-760 | Runs only when pressed and a waste entry exists. It writes only the compost entry: the estimate exactly when the model gives one, otherwise 60% of the waste. The session stays well-typed |
| Waste.WasteStepRepeatable | main.py:702-722 | Pressing the waste button a second time stores the same estimate again, so the session does not change |
| Waste.UnfittedFallbackDegrades | main.py:50-58 | With the unfitted fallback estimators, both steps always store their defaults |
| Waste.DegradedDefaultsExample | main.py:724-760 | With the unfitted fallback models, a 2 t yield gives 400 kg of waste and then 240 kg of compost |
| Waste.DegradedChain | main.py:724-760 | When both models fail, the compost entry equals yield × 120 |
| Waste.LanguageResetKeepsWasteReady | main.py:701 | A language change neither enables nor disables the waste step and keeps the session well-typed |

## Left out

- The user interface is left out: page styling, widgets, `st.write` debug output, warnings and messages. Widget bounds on the numeric inputs are not modelled either: every real is accepted.
- CSV loading, label encoding, fitting of the classifier and regressors, and `joblib` loading are left out because they are I/O. The models are parameters: a probability vector, and estimators given as partial functions.
- The yield prediction step (main.py:601-611) is left out. It calls an opaque regressor and the state and season encoders, so `predicted_yield` is taken from the session as it is.
- SHAP and LIME explanations and all plots are left out. `Recommend` takes the image drawing as a parameter (`explain`) and stores one image per recommended crop.
- `translate_text` is left out. It calls an external translation service that is never imported; its failure is caught and the text comes back unchanged.
- The feature-means view (main.py:686-692) is left out because it is a data-frame aggregation over the loaded CSV.
- The training script `recomtrain.py` is not part of this model.
- Floating point is modelled with exact reals, so rounding in `* 1000`, `* 0.2` and `* 0.6` is not modelled.
- Localization.Lower: only ASCII letters are case-folded, while Python's `str.lower` folds all of Unicode. The option tables' names are ASCII, but an option may not be: `str.lower` folds U+212A KELVIN SIGN to ASCII 'k', so "\u212Aerala" matches the "Kerala" row in the program and not in the model.
- The translation table's nested `options` section is not part of the `LabelTable` of `Translation`. Option tables are a separate ordered type.
- Ranking.Top3: ties are ordered as a stable ascending sort orders them, so after the reversal the higher index comes first. NumPy's default sort does not promise any order for ties.
- Waste.WasteStep and Waste.CompostStep: the program only ever stores a non-empty list of names or None in `top_crops`, and numbers in `predicted_yield` and `waste_pred`. The model treats any other shape as `Err`, while Python would carry on for some of them: a string in `top_crops` is indexed to its first letter, and a numeric string in `waste_pred` is converted to a float by the compost model.
- A language change deletes only the three select-box keys (main.py:83-85). Every cached module result stays.
- The fallback for missing model files (main.py:50-58) is a `LinearRegression` that is never fitted, so every call to it raises. It is modelled as an estimator with `fitted` false, and `Waste.UnfittedFallbackDegrades` shows that both steps then store their defaults.

## Findings

| source | as written | input that shows it | evidently intended | confidence | as-written member | corrected member |
|---|---|---|---|---|---|---|
| main.py:710 | `pd.get_dummies(..., drop_first=True)` on a one-row frame drops the only crop category, so no crop column survives and alignment fills every crop column with 0 | crop "Rice", predicted yield 2.0 t: the aligned row has Crop_Type_Rice = 0 | the row carries Crop_Type_Rice = 1, so the waste model sees the crop | high, not executed | Waste.RiceColumnZeroAsWritten | Waste.RiceRowAligned |

`Waste.WasteStep` and `Waste.PredictWaste` take the frame encoding as a parameter. With `AsWritten` they model main.py:701-726 as written, and `Waste.AsWrittenWasteIgnoresCrop` shows the estimate then ignores the crop. With `OneHot` they model the corrected frame (`Waste.WasteFrame`), whose aligned row `Waste.CropIndicatorAligned` characterises. `Waste.CropIgnoredAsWritten` states the general form of the defect: the aligned input as written is the same for every crop.
