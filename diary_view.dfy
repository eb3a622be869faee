/**
 * The playback side of the diary: the page that shows one stored diary.
 * It classifies the fetch result, picks the general note, filters each
 * interest area to its answered triggers, extracts plain or wrapped
 * answer values and decides whether the diary has any content.
 */
module DiaryView {
  import opened Wrappers
  import opened Js

  /** A free-text record of a stored diary. */
  datatype DiaryEntry = DiaryEntry(valueAsString: JsValue, sharedWithProvider: JsValue)

  /** A trigger answer of a stored diary; `value` is a string or an object wrapping `value`. */
  datatype DiaryTrigger = DiaryTrigger(trigger: JsValue, value: JsValue)

  /** An interest area of a stored diary; `None` triggers stand for a missing list. */
  datatype DiaryInterestArea = DiaryInterestArea(
    interest: JsValue,
    sharedWithProvider: JsValue,
    triggers: Option<seq<DiaryTrigger>>)

  /**
   * A stored diary as the server returns it. `entries` is `None` when it is
   * not an array; `interestAreas` is `None` when it is missing or falsy.
   */
  datatype DiaryData = DiaryData(
    diaryId: JsValue,
    date: JsValue,
    scope: JsValue,
    entries: Option<seq<DiaryEntry>>,
    interestAreas: Option<seq<DiaryInterestArea>>)

  // ---------------------------------------------------------------------
  // General note
  // ---------------------------------------------------------------------

  /** The general note as the page shows it. */
  datatype TextEntry = TextEntry(text: string, shared: bool)

  /** The entries searched for the note; none without a diary or an entries array. */
  function EntriesOf(diary: Option<DiaryData>): seq<DiaryEntry>
  {
    if diary.Some? && diary.value.entries.Some? then diary.value.entries.value else []
  }

  /** An entry qualifies when its text is a string that is not blank after `trim()`. */
  predicate IsNote(e: DiaryEntry)
  {
    e.valueAsString.Str? && NonBlank(e.valueAsString.s)
  }

  /**
   * getGeneralTextEntry: the first qualifying entry, with its untrimmed text
   * and `!!shared_with_provider`; `None` when no entry qualifies.
   */
  method GetGeneralTextEntry(diary: Option<DiaryData>) returns (r: Option<TextEntry>)
    ensures r.None? <==> forall i :: 0 <= i < |EntriesOf(diary)| ==> !IsNote(EntriesOf(diary)[i])
    ensures r.Some? ==> exists i ::
              && 0 <= i < |EntriesOf(diary)| && IsNote(EntriesOf(diary)[i])
              && (forall j :: 0 <= j < i ==> !IsNote(EntriesOf(diary)[j]))
              && r.value == TextEntry(EntriesOf(diary)[i].valueAsString.s, Truthy(EntriesOf(diary)[i].sharedWithProvider))
  {
    if diary.None? || diary.value.entries.None? || |diary.value.entries.value| == 0 {
      return None;
    }
    var entries := diary.value.entries.value;
    assert entries == EntriesOf(diary);
    for i := 0 to |entries|
      invariant forall j :: 0 <= j < i ==> !IsNote(entries[j])
    {
      var entry := entries[i];
      if entry.valueAsString.Str? && NonBlank(entry.valueAsString.s) {
        assert IsNote(entries[i]);
        return Some(TextEntry(entry.valueAsString.s, Truthy(entry.sharedWithProvider)));
      }
    }
    return None;
  }

  // ---------------------------------------------------------------------
  // Interest sections
  // ---------------------------------------------------------------------

  /** `v.value` for a value `typeof` calls "object" (never null here). */
  function ValueProperty(v: JsValue): JsValue
  {
    if v.Obj? then Get(v.fields, "value") else Undefined
  }

  /**
   * The text shown for a trigger value: the wrapped `value` of an object
   * when it is truthy, a string itself, and `""` otherwise.
   */
  function DisplayValue(v: JsValue): (r: JsValue)
    requires Truthy(v)
    ensures r == Str("") || Truthy(r)
    ensures v.Str? ==> r == v
    ensures v.Obj? && Truthy(Get(v.fields, "value")) ==> r == Get(v.fields, "value")
    ensures v.Arr? || (v.Obj? && !Truthy(Get(v.fields, "value"))) ==> r == Str("")
    ensures !v.Arr? && !v.Obj? && !v.Str? ==> r == Str("")
  {
    if (v.Arr? || v.Obj?) && Truthy(ValueProperty(v)) then ValueProperty(v)
    else if v.Str? then v
    else Str("")
  }

  /** A plain answer and the same answer wrapped in `{value: ...}` are shown identically. */
  lemma WrappedShownLikePlain(s: string)
    requires s != ""
    ensures DisplayValue(Str(s)) == DisplayValue(Obj([("value", Str(s))])) == Str(s)
  {
  }

  /**
   * A wrapped empty answer passes the truthiness filter (objects are
   * truthy) but is shown as the empty string.
   */
  lemma WrappedEmptyShownBlank()
    ensures Truthy(Obj([("value", Str(""))]))
    ensures DisplayValue(Obj([("value", Str(""))])) == Str("")
  {
  }

  /** The triggers with a truthy `value`, in their original order. */
  function ShownTriggers(ts: seq<DiaryTrigger>): (r: seq<DiaryTrigger>)
    ensures |r| <= |ts|
    ensures forall k :: 0 <= k < |r| ==> Truthy(r[k].value)
    ensures forall t :: t in r <==> t in ts && Truthy(t.value)
  {
    if |ts| == 0 then []
    else (if Truthy(ts[0].value) then [ts[0]] else []) + ShownTriggers(ts[1..])
  }

  /** Filtering a concatenation filters each part in place: the original order is kept. */
  lemma {:induction false} ShownTriggersConcat(a: seq<DiaryTrigger>, b: seq<DiaryTrigger>)
    ensures ShownTriggers(a + b) == ShownTriggers(a) + ShownTriggers(b)
  {
    if |a| > 0 {
      assert (a + b)[1..] == a[1..] + b;
      ShownTriggersConcat(a[1..], b);
    } else {
      assert a + b == b;
    }
  }

  /** Filtering keeps a list whose every value is truthy as it is. */
  lemma {:induction false} ShownTriggersKeepsAnswered(ts: seq<DiaryTrigger>)
    requires forall k :: 0 <= k < |ts| ==> Truthy(ts[k].value)
    ensures ShownTriggers(ts) == ts
  {
    if |ts| > 0 {
      ShownTriggersKeepsAnswered(ts[1..]);
    }
  }

  /** An area has some trigger with a truthy value. */
  predicate HasAnsweredTrigger(area: DiaryInterestArea)
  {
    area.triggers.Some? && exists k :: 0 <= k < |area.triggers.value| && Truthy(area.triggers.value[k].value)
  }

  /** One answered trigger as the page shows it. */
  datatype ShownAnswer = ShownAnswer(question: JsValue, answer: JsValue)

  /** One interest section: its title and its answers. */
  datatype Section = Section(title: JsValue, answers: seq<ShownAnswer>)

  /** `trigger.trigger || "Pergunta"`. */
  function QuestionLabel(t: DiaryTrigger): JsValue
  {
    if Truthy(t.trigger) then t.trigger else Str("Pergunta")
  }

  /**
   * The section an area renders: only with a truthy `interest`, a trigger
   * list and at least one truthy trigger value; it shows exactly the
   * triggers with a truthy value, in order.
   */
  function AreaSection(area: DiaryInterestArea): (r: Option<Section>)
    ensures r.Some? <==> Truthy(area.interest) && HasAnsweredTrigger(area)
    ensures r.Some? ==>
              var shown := ShownTriggers(area.triggers.value);
              && r.value.title == area.interest
              && |r.value.answers| == |shown| > 0
              && forall k :: 0 <= k < |shown| ==>
                   r.value.answers[k] == ShownAnswer(QuestionLabel(shown[k]), DisplayValue(shown[k].value))
  {
    if Truthy(area.interest) && area.triggers.Some? then
      var shown := ShownTriggers(area.triggers.value);
      if |shown| == 0 then
        assert !HasAnsweredTrigger(area) by {
          forall k | 0 <= k < |area.triggers.value| ensures !Truthy(area.triggers.value[k].value) {
            assert area.triggers.value[k] in area.triggers.value;
          }
        }
        None
      else
        assert shown[0] in area.triggers.value;
        Some(Section(area.interest,
          seq(|shown|, k requires 0 <= k < |shown| => ShownAnswer(QuestionLabel(shown[k]), DisplayValue(shown[k].value)))))
    else None
  }

  /** The sections of the interest-area list, in order, skipping areas that render nothing. */
  function Sections(areas: seq<DiaryInterestArea>): (r: seq<Section>)
    ensures |r| <= |areas|
  {
    if |areas| == 0 then []
    else
      var first := AreaSection(areas[0]);
      (if first.Some? then [first.value] else []) + Sections(areas[1..])
  }

  /** The sections of a concatenation are the sections of each part, in order. */
  /**
   * The sections are exactly the sections the areas render, so there is
   * none exactly when no area renders one.
   */
  lemma {:induction false} SectionsMembers(areas: seq<DiaryInterestArea>)
    ensures |Sections(areas)| == 0 <==> forall i :: 0 <= i < |areas| ==> AreaSection(areas[i]).None?
    ensures forall s :: s in Sections(areas) <==> exists i :: 0 <= i < |areas| && AreaSection(areas[i]) == Some(s)
  {
    if |areas| > 0 {
      SectionsMembers(areas[1..]);
      assert forall i :: 1 <= i < |areas| ==> areas[1..][i - 1] == areas[i];
    }
  }

  lemma {:induction false} SectionsConcat(a: seq<DiaryInterestArea>, b: seq<DiaryInterestArea>)
    ensures Sections(a + b) == Sections(a) + Sections(b)
  {
    if |a| == 0 {
      assert a + b == b;
    } else {
      var first := AreaSection(a[0]);
      var x := if first.Some? then [first.value] else [];
      assert (a + b)[0] == a[0];
      assert (a + b)[1..] == a[1..] + b;
      assert Sections(a + b) == x + Sections(a[1..] + b);
      assert Sections(a) == x + Sections(a[1..]);
      SectionsConcat(a[1..], b);
      assert x + (Sections(a[1..]) + Sections(b)) == (x + Sections(a[1..])) + Sections(b);
    }
  }

  // ---------------------------------------------------------------------
  // "Has content"
  // ---------------------------------------------------------------------

  /** `textEntry && textEntry.text`. */
  predicate HasNote(textEntry: Option<TextEntry>)
  {
    textEntry.Some? && textEntry.value.text != ""
  }

  /**
   * The `interest_areas.some(area => area.triggers.some(t => t.value))` of
   * the page as written; `None` is the TypeError thrown when the scan
   * reaches an area whose trigger list is missing.
   */
  function AnyAreaAnsweredAsWritten(areas: seq<DiaryInterestArea>): Option<bool>
  {
    if |areas| == 0 then Some(false)
    else if areas[0].triggers.None? then None
    else if HasAnsweredTrigger(areas[0]) then Some(true)
    else AnyAreaAnsweredAsWritten(areas[1..])
  }

  /** hasContent as written; `None` when evaluating it throws. */
  function HasContentAsWritten(textEntry: Option<TextEntry>, areas: Option<seq<DiaryInterestArea>>): (r: Option<bool>)
    ensures HasNote(textEntry) ==> r == Some(true)
    ensures !HasNote(textEntry) && areas.None? ==> r == Some(false)
    ensures !HasNote(textEntry) && areas.Some? && |areas.value| > 0 && areas.value[0].triggers.None? ==> r.None?
  {
    if HasNote(textEntry) then Some(true)
    else if areas.None? then Some(false)
    else AnyAreaAnsweredAsWritten(areas.value)
  }

  /** Some area has a trigger with a truthy value; areas without a trigger list have none. */
  function AnyAreaAnswered(areas: seq<DiaryInterestArea>): (r: bool)
    ensures r <==> exists i :: 0 <= i < |areas| && HasAnsweredTrigger(areas[i])
  {
    if |areas| == 0 then false
    else
      assert forall i :: 1 <= i < |areas| ==> areas[1..][i - 1] == areas[i];
      HasAnsweredTrigger(areas[0]) || AnyAreaAnswered(areas[1..])
  }

  /** hasContent with the trigger list guarded as the section renderer guards it. */
  function HasContent(textEntry: Option<TextEntry>, areas: Option<seq<DiaryInterestArea>>): (r: bool)
    ensures r <==> HasNote(textEntry) || (areas.Some? && exists i :: 0 <= i < |areas.value| && HasAnsweredTrigger(areas.value[i]))
  {
    HasNote(textEntry) || (areas.Some? && AnyAreaAnswered(areas.value))
  }

  /**
   * Where the page's own hasContent does not throw it agrees with
   * HasContent, and it throws only if some area has no trigger list.
   */
  lemma {:induction false} AsWrittenAgreesWhenDefined(textEntry: Option<TextEntry>, areas: Option<seq<DiaryInterestArea>>)
    ensures HasContentAsWritten(textEntry, areas).Some? ==> HasContentAsWritten(textEntry, areas).value == HasContent(textEntry, areas)
    ensures HasContentAsWritten(textEntry, areas).None? ==> areas.Some? && exists i :: 0 <= i < |areas.value| && areas.value[i].triggers.None?
    ensures areas.Some? && (forall i :: 0 <= i < |areas.value| ==> areas.value[i].triggers.Some?) ==>
              HasContentAsWritten(textEntry, areas) == Some(HasContent(textEntry, areas))
  {
    if !HasNote(textEntry) && areas.Some? {
      AnyAreaAsWritten(areas.value);
    }
  }

  lemma {:induction false} AnyAreaAsWritten(areas: seq<DiaryInterestArea>)
    ensures AnyAreaAnsweredAsWritten(areas).Some? ==> AnyAreaAnsweredAsWritten(areas).value == AnyAreaAnswered(areas)
    ensures AnyAreaAnsweredAsWritten(areas).None? ==> exists i :: 0 <= i < |areas| && areas[i].triggers.None?
    ensures (forall i :: 0 <= i < |areas| ==> areas[i].triggers.Some?) ==> AnyAreaAnsweredAsWritten(areas).Some?
  {
    if |areas| > 0 && areas[0].triggers.Some? && !HasAnsweredTrigger(areas[0]) {
      AnyAreaAsWritten(areas[1..]);
      assert forall i :: 1 <= i < |areas| ==> areas[1..][i - 1] == areas[i];
    }
  }

  /** A diary with no note and one area without a trigger list makes the page's hasContent throw. */
  lemma MissingTriggersThrow()
    ensures HasContentAsWritten(None, Some([DiaryInterestArea(Str("Sono"), Bool(false), None)])).None?
    ensures !HasContent(None, Some([DiaryInterestArea(Str("Sono"), Bool(false), None)]))
  {
  }

  /** Every rendered section implies content. */
  lemma SectionsImplyContent(textEntry: Option<TextEntry>, areas: seq<DiaryInterestArea>)
    requires |Sections(areas)| > 0
    ensures HasContent(textEntry, Some(areas))
  {
    SectionsMembers(areas);
    var i :| 0 <= i < |areas| && AreaSection(areas[i]).Some?;
  }

  /**
   * hasContent ignores `interest`: an area with an empty interest name and
   * an answered trigger gives content but renders no section.
   */
  lemma ContentWithoutSection()
    ensures var areas := [DiaryInterestArea(Str(""), Bool(false), Some([DiaryTrigger(Str("Q"), Str("yes"))]))];
            HasContent(None, Some(areas)) && Sections(areas) == []
  {
    var areas := [DiaryInterestArea(Str(""), Bool(false), Some([DiaryTrigger(Str("Q"), Str("yes"))]))];
    assert Truthy(areas[0].triggers.value[0].value);
    assert areas[1..] == [];
  }

  /** Without a note and with every trigger value falsy there is no content. */
  lemma NoAnswersNoContent(areas: seq<DiaryInterestArea>)
    requires forall i :: 0 <= i < |areas| && areas[i].triggers.Some? ==>
               forall k :: 0 <= k < |areas[i].triggers.value| ==> !Truthy(areas[i].triggers.value[k].value)
    ensures !HasContent(None, Some(areas))
    ensures Sections(areas) == []
  {
    SectionsMembers(areas);
  }

  // ---------------------------------------------------------------------
  // Scope label and page
  // ---------------------------------------------------------------------

  /** The time-range label: "Hoje" for scope `"today"`, "Desde o último diário" for anything else. */
  function ScopeLabel(scope: JsValue): (r: string)
    ensures r == "Hoje" <==> scope == Str("today")
    ensures r != "Hoje" ==> r == "Desde o último diário"
  {
    if scope == Str("today") then "Hoje" else "Desde o último diário"
  }

  /** What the content page shows. */
  datatype Page = Page(
    noContentBanner: bool,
    scopeLabel: string,
    sections: seq<Section>,
    note: Option<TextEntry>)

  /**
   * The content page of a loaded diary: the "no content" banner exactly
   * when there is no content, the scope label, the interest sections and
   * the general note when its text is non-empty.
   */
  method RenderPage(diary: DiaryData) returns (page: Page)
    ensures page.noContentBanner <==> !HasContent(page.note, diary.interestAreas)
    ensures page.scopeLabel == ScopeLabel(diary.scope)
    ensures page.sections == if diary.interestAreas.Some? then Sections(diary.interestAreas.value) else []
    ensures page.note.None? <==> forall i :: 0 <= i < |EntriesOf(Some(diary))| ==> !IsNote(EntriesOf(Some(diary))[i])
    ensures page.note.Some? ==> NonBlank(page.note.value.text)
    ensures page.note.Some? ==> exists i ::
              && 0 <= i < |EntriesOf(Some(diary))| && IsNote(EntriesOf(Some(diary))[i])
              && (forall j :: 0 <= j < i ==> !IsNote(EntriesOf(Some(diary))[j]))
              && page.note.value == TextEntry(EntriesOf(Some(diary))[i].valueAsString.s, Truthy(EntriesOf(Some(diary))[i].sharedWithProvider))
  {
    var textEntry := GetGeneralTextEntry(Some(diary));
    var sections := if diary.interestAreas.Some? && |diary.interestAreas.value| > 0 then Sections(diary.interestAreas.value) else [];
    page := Page(!HasContent(textEntry, diary.interestAreas), ScopeLabel(diary.scope), sections, textEntry);
  }

  // ---------------------------------------------------------------------
  // Fetch state machine
  // ---------------------------------------------------------------------

  /** How the diary request ended: a settled (possibly empty) response, or a thrown error. */
  datatype FetchOutcome = Settled(response: Option<DiaryData>) | Threw

  const NotFoundOrInvalid: string := "Diário não encontrado ou formato inválido."
  const LoadFailed: string := "Falha ao carregar o diário. Por favor, tente novamente."
  const NotFound: string := "Diário não encontrado"

  /** The route parameter is present and non-empty. */
  predicate IdGiven(diaryId: Option<string>)
  {
    diaryId.Some? && diaryId.value != ""
  }

  /** A settled response is accepted as a diary exactly when it has a truthy `diary_id`. */
  predicate Accepted(response: Option<DiaryData>)
  {
    response.Some? && Truthy(response.value.diaryId)
  }

  /** What the page shows for its state. */
  datatype Screen = Loading | ErrorScreen(message: string) | Content(diary: DiaryData)

  /** The page's state: loading flag, loaded diary and error message. */
  class DiaryViewState {
    var isLoading: bool
    var diary: Option<DiaryData>
    var error: Option<string>

    constructor ()
      ensures isLoading && diary == None && error == None
    {
      isLoading := true;
      diary := None;
      error := None;
    }

    /**
     * fetchDiaryData: without an id nothing happens; otherwise an accepted
     * response becomes the diary, any other settled response sets the
     * format error, a thrown request sets the load error, and loading ends.
     */
    method FetchDiaryData(diaryId: Option<string>, outcome: FetchOutcome)
      modifies this
      ensures !IdGiven(diaryId) ==> isLoading == old(isLoading) && diary == old(diary) && error == old(error)
      ensures IdGiven(diaryId) ==> !isLoading
      ensures IdGiven(diaryId) && outcome.Settled? && Accepted(outcome.response) ==>
                diary == outcome.response && error == old(error)
      ensures IdGiven(diaryId) && outcome.Settled? && !Accepted(outcome.response) ==>
                diary == old(diary) && error == Some(NotFoundOrInvalid)
      ensures IdGiven(diaryId) && outcome.Threw? ==> diary == old(diary) && error == Some(LoadFailed)
    {
      if !IdGiven(diaryId) {
        return;
      }
      isLoading := true;
      match outcome {
        case Settled(response) =>
          if response.Some? && Truthy(response.value.diaryId) {
            diary := response;
          } else {
            error := Some(NotFoundOrInvalid);
          }
        case Threw =>
          error := Some(LoadFailed);
      }
      isLoading := false;
    }

    /** clearError. */
    method ClearError()
      modifies this
      ensures error == None && isLoading == old(isLoading) && diary == old(diary)
    {
      error := None;
    }

    /**
     * The spinner while loading; then the error (or "not found" without a
     * diary); otherwise the diary.
     */
    function CurrentScreen(): (s: Screen)
      reads this
      ensures s == Loading <==> isLoading
      ensures s.Content? <==> !isLoading && (error.None? || error.value == "") && diary.Some?
      ensures s.Content? ==> s.diary == diary.value
      ensures s.ErrorScreen? && error.Some? && error.value != "" ==> s.message == error.value
      ensures s.ErrorScreen? && (error.None? || error.value == "") ==> s.message == NotFound
    {
      if isLoading then Loading
      else if error.Some? && error.value != "" then ErrorScreen(error.value)
      else if diary.None? then ErrorScreen(NotFound)
      else Content(diary.value)
    }
  }

  /**
   * Opening the page: without a diary id the spinner stays up and no request
   * is made; otherwise the diary when the response is accepted, the format
   * error for any other settled response and the load error when the
   * request throws.
   */
  method OpenDiary(diaryId: Option<string>, outcome: FetchOutcome) returns (s: Screen)
    ensures !IdGiven(diaryId) ==> s == Loading
    ensures IdGiven(diaryId) && outcome.Threw? ==> s == ErrorScreen(LoadFailed)
    ensures IdGiven(diaryId) && outcome.Settled? && Accepted(outcome.response) ==> s == Content(outcome.response.value)
    ensures IdGiven(diaryId) && outcome.Settled? && !Accepted(outcome.response) ==> s == ErrorScreen(NotFoundOrInvalid)
  {
    var view := new DiaryViewState();
    view.FetchDiaryData(diaryId, outcome);
    s := view.CurrentScreen();
  }
}
