# Diary capture and playback, modelled in Dafny

This project models the diary feature of a patient/provider health portal.
The feature has two pipelines.

- **Capture** (`src/pages/patient/diary/DiaryInfoForm.tsx`): the diary form.
  It normalises the server's loosely typed interest catalog into interest
  areas with triggers (questions). It applies the user's edits (area
  response, area sharing flag, trigger response, open/closed cards). It
  counts the answered areas. On submit, it folds the answered part into the
  nested `interest_area_dict → trigger_dict` dictionary and computes
  `diary_shared` and `date_range_type`.
- **Playback** (`src/pages/patient/diary/ViewDiary.tsx`): the page that
  shows one stored diary. It classifies the fetch result (loaded, format
  error, load error). It picks the first non-blank free-text entry as the
  general note. It filters each interest area to the triggers with a truthy
  value. It extracts plain or `{value: …}`-wrapped answers. It decides
  whether the diary has content.

Files:

- `wrappers.dfy`: `Option`, standing for fields that may be `undefined`.
- `js.dfy`: the JavaScript semantics the pages rely on. It covers JSON values
  (`JsValue`), truthiness, `String(x)`, the strict equality that `indexOf`
  uses, and `trim()` with ECMAScript's whitespace set.
- `diary_form.dfy`: module `DiaryForm`. The catalog normaliser and the edit
  handlers are functions, because the source writes them as
  `map`/`Object.entries` expressions and React updater functions. The
  submission fold is a method with nested loops, because the source builds
  both dictionaries by in-place key assignment. That method is proved equal
  to the left fold `FoldAreas`, and lemmas characterise what `FoldAreas`
  holds.
- `diary_view.dfy`: module `DiaryView`. The general-note search is a method
  with a loop and an early return. The filters, the value extraction and
  `hasContent` are functions. The page state (`isLoading`, `diary`,
  `error`) is a class whose `FetchDiaryData` method is the fetch state
  machine.

Behaviour of the code that one might not expect, which the model follows:

- `diary_shared` is `shareText || some area.shared`. One would expect
  trigger-level sharing flags to count as well; the code does not consult
  them (`TriggerSharingIgnored`).
- With a missing or empty diary id the page issues no request. It keeps its
  initial `isLoading = true`, so it shows the spinner rather than a
  "not found" message (`OpenDiary`).
- Playback keeps triggers whose `value` is truthy, not triggers whose value
  is non-empty. A wrapped empty answer `{value: ""}` is an object, so it is
  truthy. It therefore passes the filter and is shown as an empty answer
  (`WrappedEmptyShownBlank`).
- The first filter in `handleSubmit` lets an area with a missing response
  through (`undefined !== ""`). An area let through only by its missing
  response contributes nothing, because its `trigger_dict` stays empty and
  the later `Object.keys(...).length > 0` check drops it
  (`TriggerDictNonEmpty`). Conversely, the filter drops only areas that
  would have produced an empty `trigger_dict` (`FilteredOutIsEmpty`).
- Both dictionaries are plain objects filled by `dict[key] = …`. For the key
  `"__proto__"` that assignment runs the prototype setter and stores no own
  property, so an answered trigger named `__proto__`, or an area whose key
  is `__proto__`, is missing from the submission although
  `answeredInterests` counts it (`ProtoTriggerDropped`).

## Model

| member | source | states |
|---|---|---|
| `Js.Values` | src/pages/patient/diary/DiaryInfoForm.tsx:81 | `Object.values` gives one value per property, in property order |
| `Js.Get` | src/pages/patient/diary/ViewDiary.tsx:235-237 | a property read yields `undefined` for a missing key, and for a present key the value of its first occurrence |
| `Js.IntToString` | src/pages/patient/diary/DiaryInfoForm.tsx:211 | `String(n)` is a minus sign exactly for negative `n`, followed by decimal digits |
| `Js.NatToStringRoundTrip` | src/pages/patient/diary/DiaryInfoForm.tsx:211 | reading back the decimal digits `String(n)` prints gives `n` |
| `Js.NatToStringInjective` | src/pages/patient/diary/DiaryInfoForm.tsx:211 | distinct natural numbers have distinct decimal forms |
| `Js.IntToStringInjective` | src/pages/patient/diary/DiaryInfoForm.tsx:211 | distinct ids give distinct `interest_<id>` fallback keys, because `String` is injective on integers |
| `Js.ToJsString` | src/pages/patient/diary/DiaryInfoForm.tsx:82 | `String(x)`: a string is itself, a number its decimal form, `undefined`/`null`/booleans their names, every plain object `[object Object]`; this is also the key a trigger name becomes (line 225) |
| `Js.TrimStartIndex` | src/pages/patient/diary/DiaryInfoForm.tsx:205 | `trim()` drops exactly the leading whitespace: the dropped prefix is all whitespace and the next character is not |
| `Js.TrimEndIndex` | src/pages/patient/diary/DiaryInfoForm.tsx:205 | `trim()` drops exactly the trailing whitespace: the dropped suffix is all whitespace and the character before it is not |
| `Js.TrimIsCore` | src/pages/patient/diary/ViewDiary.tsx:104 | `trim()` keeps a contiguous middle of the string with whitespace-only borders, and a non-empty result starts and ends with non-whitespace |
| `Js.NonBlankIff` | src/pages/patient/diary/DiaryInfoForm.tsx:215 | `s.trim()` is truthy (non-empty) iff `s` holds some non-whitespace character |
| `DiaryForm.CoerceTriggersCases` | src/pages/patient/diary/DiaryInfoForm.tsx:78-82 | an array trigger list is kept; an object becomes its values in order; any other value, null included, becomes `[String(x)]`, so a string stays itself |
| `DiaryForm.IndexOfFrom` | src/pages/patient/diary/DiaryInfoForm.tsx:92 | `indexOf` returns the first position strictly equal to the name, never past the name's own position |
| `DiaryForm.Normalise` | src/pages/patient/diary/DiaryInfoForm.tsx:63-100 | a missing response gives `[]`; otherwise one area per dictionary entry, in entry order, with id `observation_id + i` (a missing observation id counting as 0), the entry's name, the coerced trigger names, trigger ids `i*1000 + indexOf(name)`, and every response `""` and flag `false` |
| `DiaryForm.LoadInterests` | src/pages/patient/diary/DiaryInfoForm.tsx:58-126 | a received response is normalised; a thrown request gives the single placeholder area with id 1 and one trigger with id 1 |
| `DiaryForm.IndexOfSame` | src/pages/patient/diary/DiaryInfoForm.tsx:92 | within one area two triggers get the same id iff their names are strictly equal, so a repeated name shares its first occurrence's id |
| `DiaryForm.NormalisedTriggerIds` | src/pages/patient/diary/DiaryInfoForm.tsx:85-96 | when no area has 1000 triggers, two normalised triggers share an id iff they are in the same area with strictly equal names |
| `DiaryForm.ToggleInterest` | src/pages/patient/diary/DiaryInfoForm.tsx:136-141 | flips the open state of exactly one key, a missing key reading as closed; all other keys keep their values |
| `DiaryForm.ToggleTwice` | src/pages/patient/diary/DiaryInfoForm.tsx:136-141 | toggling the same card twice restores the open state every card shows |
| `DiaryForm.SetAreaResponse` | src/pages/patient/diary/DiaryInfoForm.tsx:143-154 | length kept; areas with the target id get the new response; no other field and no other area changes |
| `DiaryForm.SetAreaShared` | src/pages/patient/diary/DiaryInfoForm.tsx:156-164 | length kept; areas with the target id get the new sharing flag; no other field and no other area changes |
| `DiaryForm.SetResponseIn` | src/pages/patient/diary/DiaryInfoForm.tsx:177-181 | inside one area only the triggers with the target id get the new response, and nothing else changes |
| `DiaryForm.SetTriggerResponse` | src/pages/patient/diary/DiaryInfoForm.tsx:166-186 | other areas unchanged; in a matching area only the matching triggers' responses change, and missing triggers become `[]` |
| `DiaryForm.UnknownIdNoOp` | src/pages/patient/diary/DiaryInfoForm.tsx:143-186 | an id no area carries leaves the list unchanged under all three handlers |
| `DiaryForm.EditsCompose` | src/pages/patient/diary/DiaryInfoForm.tsx:143-164 | the last of two response edits wins, and response and sharing edits commute |
| `DiaryForm.SharedIdEditedTogether` | src/pages/patient/diary/DiaryInfoForm.tsx:166-186 | two triggers of one area with the same id (a repeated name) are always edited together |
| `DiaryForm.AnsweredCount` | src/pages/patient/diary/DiaryInfoForm.tsx:281-286 | `answeredInterests` is between 0 and `totalInterests`; it is 0 iff no area is answered, and equals the total iff every area is |
| `DiaryForm.FoldTriggersKeys` | src/pages/patient/diary/DiaryInfoForm.tsx:223-231 | the trigger loop adds as own keys exactly the names, other than `__proto__`, of the triggers with a non-blank response |
| `DiaryForm.FoldTriggersKeeps` | src/pages/patient/diary/DiaryInfoForm.tsx:223-231 | a key no stored trigger is named after keeps its earlier entry |
| `DiaryForm.FoldTriggersLastWins` | src/pages/patient/diary/DiaryInfoForm.tsx:223-231 | a stored trigger's id, untrimmed response and flag sit under its name unless a later stored trigger has the same name |
| `DiaryForm.TriggerDictKeys` | src/pages/patient/diary/DiaryInfoForm.tsx:212-231 | an area's `trigger_dict` has `general_response` when the area response is non-blank, plus the name of every answered trigger not named `__proto__`, and nothing else |
| `DiaryForm.TriggerDictNonEmpty` | src/pages/patient/diary/DiaryInfoForm.tsx:212-238 | an area's `trigger_dict` is non-empty iff its response or some stored trigger's response is non-blank; that implies the area is answered, and an answered area with no trigger named `__proto__` has a non-empty one |
| `DiaryForm.GeneralResponseEntry` | src/pages/patient/diary/DiaryInfoForm.tsx:214-220 | `general_response` is present iff the area response is non-blank, and it holds the untrimmed text and the area flag, unless a trigger named `general_response` overwrites it |
| `DiaryForm.TriggerAnswerEntry` | src/pages/patient/diary/DiaryInfoForm.tsx:223-231 | in an area's `trigger_dict`, an answered trigger not named `__proto__` is stored under its name with its id, untrimmed text and flag, unless a later stored trigger of the same area has that name |
| `DiaryForm.FoldAreasKeys` | src/pages/patient/diary/DiaryInfoForm.tsx:201-239 | the keys of `interest_area_dict` are exactly the keys (`interest_name`, or `interest_<id>` when the name is falsy) of the areas with a non-empty `trigger_dict`, `__proto__` excepted |
| `DiaryForm.FoldAreasLastWins` | src/pages/patient/diary/DiaryInfoForm.tsx:233-238 | a contributing area's `trigger_dict` is stored under its key, unless that key is `__proto__` or a later contributing area has the same key |
| `DiaryForm.SubmittedAreasMatchCount` | src/pages/patient/diary/DiaryInfoForm.tsx:233-238 | with distinct area keys, the submitted dictionary has at most as many areas as `answeredInterests` counts, and exactly as many when no key or trigger name is `__proto__` |
| `DiaryForm.ProtoTriggerDropped` | src/pages/patient/diary/DiaryInfoForm.tsx:225 | an area answered only through a trigger named `__proto__` is counted as answered but submits nothing |
| `DiaryForm.FilteredOutIsEmpty` | src/pages/patient/diary/DiaryInfoForm.tsx:202-207 | an area the first filter drops would have produced an empty `trigger_dict` |
| `DiaryForm.BuildTriggerDict` | src/pages/patient/diary/DiaryInfoForm.tsx:212-231 | the per-area loop body, with the `__proto__` assignment storing nothing, builds exactly `TriggerDictOf(area)` |
| `DiaryForm.BuildInterestAreaDict` | src/pages/patient/diary/DiaryInfoForm.tsx:196-239 | the nested loops, with plain-object assignment skipping the `__proto__` key, build exactly `FoldAreas(areas)` |
| `DiaryForm.AnyAreaShared` | src/pages/patient/diary/DiaryInfoForm.tsx:241-242 | true iff some area's own sharing flag is set |
| `DiaryForm.TriggerSharingIgnored` | src/pages/patient/diary/DiaryInfoForm.tsx:241-242 | `diary_shared` depends only on `shareText` and the area-level flags, not on trigger flags |
| `DiaryForm.BuildDiary` | src/pages/patient/diary/DiaryInfoForm.tsx:241-255 | `date_range_type` is TODAY iff the time range is `"today"`; text and `text_shared` are passed through; `diary_shared` is `shareText` or some area's flag; the dictionary is the fold |
| `DiaryForm.AnsweredAreaIsSubmitted` | src/pages/patient/diary/DiaryInfoForm.tsx:143-154 | typing a non-blank response into an area puts that area's key into the submitted dictionary iff the key is not `__proto__` |
| `DiaryForm.SleepNormalised` | src/pages/patient/diary/DiaryInfoForm.tsx:74-100 | the catalog `{"Sleep": ["How many hours?", "Quality?"]}` with observation id 10 gives area 10 with triggers 0 and 1 |
| `DiaryForm.SleepSubmitted` | src/pages/patient/diary/DiaryInfoForm.tsx:201-239 | answering only "Quality?" with "Good" submits exactly `{"Sleep": {"Quality?": {trigger_id: 1, value: "Good", shared: false}}}`, with no `general_response` |
| `DiaryView.GetGeneralTextEntry` | src/pages/patient/diary/ViewDiary.tsx:96-114 | null without a diary, without an entries array, or when no entry is a non-blank string; otherwise the first such entry, with untrimmed text and `!!shared_with_provider` |
| `DiaryView.DisplayValue` | src/pages/patient/diary/ViewDiary.tsx:235-240 | a string is shown as itself; an object with a truthy `value` shows that value; an array, an object whose `value` is falsy, and any other value show `""` |
| `DiaryView.WrappedShownLikePlain` | src/pages/patient/diary/ViewDiary.tsx:235-240 | `"hello"` and `{value: "hello"}` are shown identically, as `"hello"` |
| `DiaryView.WrappedEmptyShownBlank` | src/pages/patient/diary/ViewDiary.tsx:207-209 | `{value: ""}` passes the truthiness filter but is shown as `""` |
| `DiaryView.ShownTriggers` | src/pages/patient/diary/ViewDiary.tsx:207-209 | the shown triggers are exactly those with a truthy `value` |
| `DiaryView.ShownTriggersConcat` | src/pages/patient/diary/ViewDiary.tsx:207-209 | the filter keeps the original order: filtering a concatenation is the concatenation of the filtered parts |
| `DiaryView.ShownTriggersKeepsAnswered` | src/pages/patient/diary/ViewDiary.tsx:207-209 | a list whose values are all truthy is shown whole |
| `DiaryView.AreaSection` | src/pages/patient/diary/ViewDiary.tsx:205-246 | an area renders a section iff `interest` is truthy, `triggers` is present and some trigger value is truthy; the section is titled by the interest and lists exactly the shown triggers, in order, with their extracted answers |
| `DiaryView.Sections` | src/pages/patient/diary/ViewDiary.tsx:203-248 | at most one section per area |
| `DiaryView.SectionsMembers` | src/pages/patient/diary/ViewDiary.tsx:203-248 | the sections are exactly the sections the areas render, and there is none iff no area renders one |
| `DiaryView.SectionsConcat` | src/pages/patient/diary/ViewDiary.tsx:203-248 | sections follow area order: the sections of a concatenation are the concatenated sections of the parts |
| `DiaryView.AnyAreaAnswered` | src/pages/patient/diary/ViewDiary.tsx:160-164 | true iff some area has a trigger list with a truthy value |
| `DiaryView.HasContentAsWritten` | src/pages/patient/diary/ViewDiary.tsx:158-164 | the page's own `hasContent`: true with a non-empty note, false without areas, otherwise the unguarded scan, which throws at an area without triggers (see `AsWrittenAgreesWhenDefined`) |
| `DiaryView.HasContent` | src/pages/patient/diary/ViewDiary.tsx:158-164 | content iff the note text is non-empty or some area has a trigger with a truthy value; `interest` is not consulted |
| `DiaryView.AsWrittenAgreesWhenDefined` | src/pages/patient/diary/ViewDiary.tsx:158-164 | the page's own `hasContent` agrees with `HasContent` whenever it does not throw, and it throws only if some area lacks a trigger list |
| `DiaryView.AnyAreaAsWritten` | src/pages/patient/diary/ViewDiary.tsx:160-164 | the unguarded `.some` scan agrees with `AnyAreaAnswered` when it returns, and it throws only at an area without triggers |
| `DiaryView.MissingTriggersThrow` | src/pages/patient/diary/ViewDiary.tsx:160-164 | a diary with no note and one area without `triggers` makes the page's `hasContent` throw |
| `DiaryView.SectionsImplyContent` | src/pages/patient/diary/ViewDiary.tsx:158-164 | a rendered section implies content |
| `DiaryView.ContentWithoutSection` | src/pages/patient/diary/ViewDiary.tsx:158-164 | content can hold while no section renders: an area with an empty interest name and an answered trigger |
| `DiaryView.NoAnswersNoContent` | src/pages/patient/diary/ViewDiary.tsx:158-164 | with no note and all trigger values falsy there is no content and no section |
| `DiaryView.ScopeLabel` | src/pages/patient/diary/ViewDiary.tsx:188 | "Hoje" iff the scope is `"today"`, and "Desde o último diário" for any other value |
| `DiaryView.RenderPage` | src/pages/patient/diary/ViewDiary.tsx:157-251 | the "no content" banner shows iff there is no content by the corrected `HasContent`; the page carries the scope label, the interest sections, and the general note iff some entry qualifies, namely the first qualifying entry's untrimmed text and `!!shared_with_provider`; on the Findings input it renders a page where the source throws |
| `DiaryView.DiaryViewState.constructor` | src/pages/patient/diary/ViewDiary.tsx:38-40 | the page starts loading, with no diary and no error |
| `DiaryView.DiaryViewState.FetchDiaryData` | src/pages/patient/diary/ViewDiary.tsx:43-79 | no id: nothing changes; otherwise a truthy `diary_id` loads the diary, any other settled response sets the format error, a throw sets the load error, and loading ends in all three cases |
| `DiaryView.DiaryViewState.ClearError` | src/pages/patient/diary/ViewDiary.tsx:116-118 | clears the error and nothing else |
| `DiaryView.DiaryViewState.CurrentScreen` | src/pages/patient/diary/ViewDiary.tsx:120-155 | spinner iff loading; then the error message, or "Diário não encontrado" without a diary; otherwise the stored diary itself |
| `DiaryView.OpenDiary` | src/pages/patient/diary/ViewDiary.tsx:42-79 | without an id the spinner stays; with one, the loaded diary, the format error or the load error, according to the outcome |

## Findings

| source | as written | input that shows it | evidently intended | confidence | as-written member | corrected member |
|---|---|---|---|---|---|---|
| src/pages/patient/diary/ViewDiary.tsx:160-164 | `hasContent` calls `area.triggers.some(...)` on every area without checking that `triggers` exists, although its own comment speaks of checking for the new format and the section renderer guards with `area.interest && area.triggers` | a diary with no general note and `interest_areas: [{interest: "Sono", shared_with_provider: false}]` (no `triggers`): the page throws a TypeError while rendering | an area without a trigger list counts as having no answered trigger, as the section renderer treats it | not executed | `DiaryView.HasContentAsWritten`, shown by `DiaryView.MissingTriggersThrow` | `DiaryView.HasContent`, with `DiaryView.AsWrittenAgreesWhenDefined` and `DiaryView.SectionsImplyContent` |

## Left out

- HTTP clients: the catalog request, the diary POST and the diary GET are not modelled. Each becomes an input: `CatalogFetch` (a response, possibly empty, or a throw) and `FetchOutcome` (a settled response, possibly empty, or a throw).
- Submission status: `isSubmitting`, `submitSuccess`, `submitError`, `clearSubmitError` and the 2-second redirect after a successful POST are not modelled. They are network and navigation glue around `BuildDiary`.
- `isLoadingInterests` is not modelled. It is set to false once the catalog request settles either way, and nothing in the core reads it.
- JSX rendering, class names, the visual components and `console` logging are not modelled.
- `formatDate` is not modelled. It depends on `Date` parsing and time zones.
- Numbers are integers. Floating-point values and NaN are not modelled; NaN would matter for `indexOf` and for truthiness.
- Object key order: an object is an ordered list of (key, value) pairs in iteration order. JavaScript's reordering of integer-like keys is not modelled.
- The submitted dictionaries are Dafny maps, so their key order on the wire is not modelled. Their contents, including overwrite-by-key and the `__proto__` key that creates no entry, are. What that assignment does to the object's prototype is not modelled; nothing in the core reads it back.
- DiaryView.RenderPage: uses the corrected `HasContent`, so on the input in "## Findings" (no note, an area without `triggers`) it renders a page where the source throws; the as-written behaviour is `HasContentAsWritten`.
- Trigger fields the core never reads are not modelled: `custom_trigger_name`, `observation_concept_id` and `value_as_string`. Neither are the placeholder's extra fields.
- Loosely typed shapes that would throw elsewhere are not modelled: `null` elements inside `entries`, `interest_areas` or `triggers`, and truthy values of those fields that are not arrays. `DisplayValue` is only applied to values that passed the truthiness filter, so it never reads `.value` of `null`.
- When the diary id changes while a request is outstanding, a late response can overwrite the newer one's state. This race is not modelled, because requests complete atomically in the model.
- The onboarding wizard, the provider profile page, the generated REST services and the type-only model files are not part of this model.
