/**
 * The capture side of the diary: the diary form page. It turns the
 * server's interest-area catalog into editable records, applies the
 * user's edits, counts the answered areas and folds the answered part
 * into the nested dictionary the diary-create endpoint expects.
 */
module DiaryForm {
  import opened Wrappers
  import opened Js

  /** A trigger (a question asked under an interest area) as the form holds it. */
  datatype Trigger = Trigger(name: JsValue, id: int, response: Option<string>, shared: bool)

  /** An interest area as the form holds it; `None` stands for a missing (`undefined`) field. */
  datatype Area = Area(
    id: int,
    name: Option<string>,
    response: Option<string>,
    shared: bool,
    triggers: Option<seq<Trigger>>)

  /**
   * The catalog response: the interest dictionary as an ordered list of
   * (interest name, trigger list) pairs, and the observation id that
   * numbers the areas.
   */
  datatype CatalogResponse = CatalogResponse(
    interestAreaDict: Option<seq<(string, JsValue)>>,
    observationId: Option<int>)

  /** How the catalog request ended: a (possibly empty) response, or a thrown error. */
  datatype CatalogFetch = Received(response: Option<CatalogResponse>) | Failed

  // ---------------------------------------------------------------------
  // Catalog normalisation
  // ---------------------------------------------------------------------

  /** The dictionary entries, `[]` when the response or its dictionary is missing. */
  function DictEntries(response: Option<CatalogResponse>): seq<(string, JsValue)>
  {
    match response
    case None => []
    case Some(r) => if r.interestAreaDict.Some? then r.interestAreaDict.value else []
  }

  /** `observation_id || 0`. */
  function BaseId(response: Option<CatalogResponse>): int
  {
    if response.Some? && response.value.observationId.Some? then response.value.observationId.value else 0
  }

  /**
   * A trigger list coerced to a list: an array as it is, an object as its
   * values, anything else as the one-element list of its string form.
   */
  function CoerceTriggers(v: JsValue): (r: seq<JsValue>)
  {
    match v
    case Arr(items) => items
    case Obj(fields) => Values(fields)
    case _ => [Str(ToJsString(v))]
  }

  /**
   * The three coercion cases: an array is kept, an object becomes its
   * values in order, and any other value (null included) becomes the
   * one-element list of its string form, so a string stays itself.
   */
  lemma CoerceTriggersCases(v: JsValue)
    ensures v.Arr? ==> CoerceTriggers(v) == v.items
    ensures v.Obj? ==> |CoerceTriggers(v)| == |v.fields|
    ensures v.Obj? ==> forall i :: 0 <= i < |v.fields| ==> CoerceTriggers(v)[i] == v.fields[i].1
    ensures !v.Arr? && !v.Obj? ==> CoerceTriggers(v) == [Str(ToJsString(v))]
    ensures v.Str? ==> CoerceTriggers(v) == [v]
    ensures v == Null ==> CoerceTriggers(v) == [Str("null")]
  {
  }

  /** `names[j] === names[i]`, where each array or object element is a distinct object. */
  predicate SameElement(names: seq<JsValue>, j: nat, i: nat)
    requires j < |names| && i < |names|
  {
    j == i || (IsPrimitive(names[i]) && names[j] == names[i])
  }

  /** `names.indexOf(names[i])` with the search started at `k`. */
  function IndexOfFrom(names: seq<JsValue>, i: nat, k: nat): (j: nat)
    requires i < |names| && k <= i
    ensures k <= j <= i && SameElement(names, j, i)
    ensures forall m :: k <= m < j ==> !SameElement(names, m, i)
    decreases i - k
  {
    if SameElement(names, k, i) then k else IndexOfFrom(names, i, k + 1)
  }

  function IndexOf(names: seq<JsValue>, i: nat): nat
    requires i < |names|
  {
    IndexOfFrom(names, i, 0)
  }

  /** The trigger made for `names[t]` in the area at position `areaIndex`. */
  function NormaliseTrigger(names: seq<JsValue>, areaIndex: nat, t: nat): Trigger
    requires t < |names|
  {
    Trigger(names[t], areaIndex * 1000 + IndexOf(names, t), Some(""), false)
  }

  /** The area made for the dictionary entry at position `index`. */
  function NormaliseArea(entry: (string, JsValue), base: int, index: nat): Area
  {
    var names := CoerceTriggers(entry.1);
    Area(base + index, Some(entry.0), Some(""), false,
         Some(seq(|names|, t requires 0 <= t < |names| => NormaliseTrigger(names, index, t))))
  }

  /**
   * The catalog normaliser: one area per dictionary entry, in entry order,
   * numbered from the observation id, each with its coerced trigger list
   * and every response empty and unshared.
   */
  function Normalise(response: Option<CatalogResponse>): (r: seq<Area>)
    ensures response.None? ==> r == []
    ensures |r| == |DictEntries(response)|
    ensures forall i :: 0 <= i < |r| ==>
              && r[i].id == BaseId(response) + i
              && r[i].name == Some(DictEntries(response)[i].0)
              && r[i].response == Some("") && !r[i].shared
              && r[i].triggers.Some?
              && |r[i].triggers.value| == |CoerceTriggers(DictEntries(response)[i].1)|
    ensures forall i, t :: 0 <= i < |r| && r[i].triggers.Some? && 0 <= t < |r[i].triggers.value| ==>
              var names := CoerceTriggers(DictEntries(response)[i].1);
              && t < |names|
              && r[i].triggers.value[t].name == names[t]
              && r[i].triggers.value[t].id == i * 1000 + IndexOf(names, t)
              && r[i].triggers.value[t].response == Some("")
              && !r[i].triggers.value[t].shared
  {
    var entries := DictEntries(response);
    seq(|entries|, i requires 0 <= i < |entries| => NormaliseArea(entries[i], BaseId(response), i))
  }

  /** The development placeholder used when the catalog request throws. */
  const Placeholder: Area :=
    Area(1, None, Some(""), false, Some([Trigger(Str("Como você se sentiu hoje?"), 1, Some(""), false)]))

  /** The interest list after the catalog request: normalised, or the placeholder on failure. */
  function LoadInterests(fetch: CatalogFetch): (r: seq<Area>)
    ensures fetch.Failed? ==> |r| == 1 && r[0].id == 1 && r[0].triggers == Some([Trigger(Str("Como você se sentiu hoje?"), 1, Some(""), false)])
    ensures fetch.Received? ==> r == Normalise(fetch.response)
  {
    match fetch
    case Received(response) => Normalise(response)
    case Failed => [Placeholder]
  }

  /**
   * Trigger ids inside one area coincide exactly for strictly equal names:
   * a repeated name gets the id of its first occurrence.
   */
  lemma {:induction false} IndexOfSame(names: seq<JsValue>, s: nat, t: nat)
    requires s < |names| && t < |names|
    ensures IndexOf(names, s) == IndexOf(names, t) <==> SameElement(names, s, t)
  {
    var a, b := IndexOf(names, s), IndexOf(names, t);
    assert SameElement(names, a, s) && SameElement(names, b, t);
    if SameElement(names, s, t) {
      assert forall m :: 0 <= m < |names| && m <= s && m <= t ==> (SameElement(names, m, s) <==> SameElement(names, m, t));
    }
  }

  /** Position arithmetic behind `areaIndex * 1000 + position`. */
  lemma IdSplit(a: nat, s: nat, b: nat, t: nat)
    requires s < 1000 && t < 1000
    ensures a * 1000 + s == b * 1000 + t <==> a == b && s == t
  {
    if a < b {
      assert a * 1000 + 1000 <= b * 1000;
    } else if b < a {
      assert b * 1000 + 1000 <= a * 1000;
    }
  }

  /**
   * When no area has 1000 or more triggers, two normalised triggers share an
   * id exactly when they sit in the same area and their names are strictly
   * equal.
   */
  lemma NormalisedTriggerIds(response: Option<CatalogResponse>, i: nat, s: nat, j: nat, t: nat)
    requires forall k :: 0 <= k < |DictEntries(response)| ==> |CoerceTriggers(DictEntries(response)[k].1)| < 1000
    requires i < |Normalise(response)| && j < |Normalise(response)|
    requires s < |CoerceTriggers(DictEntries(response)[i].1)|
    requires t < |CoerceTriggers(DictEntries(response)[j].1)|
    ensures s < |Normalise(response)[i].triggers.value| && t < |Normalise(response)[j].triggers.value|
    ensures Normalise(response)[i].triggers.value[s].id == Normalise(response)[j].triggers.value[t].id
            <==> i == j && SameElement(CoerceTriggers(DictEntries(response)[i].1), s, t)
  {
    var r := Normalise(response);
    var ni, nj := CoerceTriggers(DictEntries(response)[i].1), CoerceTriggers(DictEntries(response)[j].1);
    assert r[i].triggers.value[s].id == i * 1000 + IndexOf(ni, s);
    assert r[j].triggers.value[t].id == j * 1000 + IndexOf(nj, t);
    IdSplit(i, IndexOf(ni, s), j, IndexOf(nj, t));
    if i == j {
      IndexOfSame(ni, s, t);
    }
  }

  // ---------------------------------------------------------------------
  // Edit handlers
  // ---------------------------------------------------------------------

  /** `openTriggers[id] || false`: a missing key reads as closed. */
  predicate IsOpen(open: map<int, bool>, id: int)
  {
    id in open && open[id]
  }

  /** toggleInterest: flips the open flag of one area, a missing key counting as closed. */
  function ToggleInterest(open: map<int, bool>, id: int): (r: map<int, bool>)
    ensures r.Keys == open.Keys + {id}
    ensures IsOpen(r, id) == !IsOpen(open, id)
    ensures forall k :: k in open && k != id ==> r[k] == open[k]
  {
    open[id := !IsOpen(open, id)]
  }

  /** Toggling the same area twice gives back what every area showed before. */
  lemma ToggleTwice(open: map<int, bool>, id: int, k: int)
    ensures IsOpen(ToggleInterest(ToggleInterest(open, id), id), k) == IsOpen(open, k)
  {
  }

  /**
   * handleInterestResponseChange: every area with the given id gets the new
   * response; nothing else changes.
   */
  function SetAreaResponse(areas: seq<Area>, id: int, response: string): (r: seq<Area>)
    ensures |r| == |areas|
    ensures forall i :: 0 <= i < |areas| ==>
              && r[i].(response := areas[i].response) == areas[i]
              && r[i].response == (if areas[i].id == id then Some(response) else areas[i].response)
  {
    seq(|areas|, i requires 0 <= i < |areas| =>
      if areas[i].id == id then areas[i].(response := Some(response)) else areas[i])
  }

  /**
   * handleInterestSharingToggle: every area with the given id gets the new
   * sharing flag; nothing else changes.
   */
  function SetAreaShared(areas: seq<Area>, id: int, shared: bool): (r: seq<Area>)
    ensures |r| == |areas|
    ensures forall i :: 0 <= i < |areas| ==>
              && r[i].(shared := areas[i].shared) == areas[i]
              && r[i].shared == (if areas[i].id == id then shared else areas[i].shared)
  {
    seq(|areas|, i requires 0 <= i < |areas| =>
      if areas[i].id == id then areas[i].(shared := shared) else areas[i])
  }

  /** The triggers of an area, `[]` when they are missing. */
  function TriggersOf(a: Area): seq<Trigger>
  {
    if a.triggers.Some? then a.triggers.value else []
  }

  /** The inner map of handleTriggerResponseChange over one area's triggers. */
  function SetResponseIn(ts: seq<Trigger>, triggerId: int, response: string): (r: seq<Trigger>)
    ensures |r| == |ts|
    ensures forall k :: 0 <= k < |ts| ==>
              && r[k].(response := ts[k].response) == ts[k]
              && r[k].response == (if ts[k].id == triggerId then Some(response) else ts[k].response)
  {
    seq(|ts|, k requires 0 <= k < |ts| =>
      if ts[k].id == triggerId then ts[k].(response := Some(response)) else ts[k])
  }

  /**
   * handleTriggerResponseChange: inside the areas with the given id, the
   * triggers with the given id get the new response, and missing triggers
   * become `[]`; every other area and trigger is unchanged.
   */
  function SetTriggerResponse(areas: seq<Area>, areaId: int, triggerId: int, response: string): (r: seq<Area>)
    ensures |r| == |areas|
    ensures forall i :: 0 <= i < |areas| && areas[i].id != areaId ==> r[i] == areas[i]
    ensures forall i :: 0 <= i < |areas| && areas[i].id == areaId ==>
              && r[i].(triggers := areas[i].triggers) == areas[i]
              && r[i].triggers.Some?
              && |r[i].triggers.value| == |TriggersOf(areas[i])|
              && forall k :: 0 <= k < |TriggersOf(areas[i])| ==>
                   var old_t := TriggersOf(areas[i])[k];
                   && r[i].triggers.value[k].(response := old_t.response) == old_t
                   && r[i].triggers.value[k].response == (if old_t.id == triggerId then Some(response) else old_t.response)
  {
    seq(|areas|, i requires 0 <= i < |areas| =>
      if areas[i].id == areaId then
        areas[i].(triggers :=
          match areas[i].triggers
          case Some(ts) => Some(SetResponseIn(ts, triggerId, response))
          case None => Some([]))
      else areas[i])
  }

  /** Editing an id no area carries changes nothing. */
  lemma UnknownIdNoOp(areas: seq<Area>, id: int, response: string, shared: bool, triggerId: int)
    requires forall i :: 0 <= i < |areas| ==> areas[i].id != id
    ensures SetAreaResponse(areas, id, response) == areas
    ensures SetAreaShared(areas, id, shared) == areas
    ensures SetTriggerResponse(areas, id, triggerId, response) == areas
  {
  }

  /** The last of two response edits of the same area wins, and response and sharing edits commute. */
  lemma EditsCompose(areas: seq<Area>, id: int, x: string, y: string, other: int, shared: bool)
    ensures SetAreaResponse(SetAreaResponse(areas, id, x), id, y) == SetAreaResponse(areas, id, y)
    ensures SetAreaShared(SetAreaResponse(areas, id, x), other, shared)
            == SetAreaResponse(SetAreaShared(areas, other, shared), id, x)
  {
  }

  /**
   * Two triggers of one area that share an id (a repeated name) are edited
   * together.
   */
  lemma SharedIdEditedTogether(areas: seq<Area>, i: nat, s: nat, t: nat, response: string)
    requires i < |areas| && areas[i].triggers.Some?
    requires s < |areas[i].triggers.value| && t < |areas[i].triggers.value|
    requires areas[i].triggers.value[s].id == areas[i].triggers.value[t].id
    ensures var r := SetTriggerResponse(areas, areas[i].id, areas[i].triggers.value[s].id, response);
            r[i].triggers.value[s].response == r[i].triggers.value[t].response == Some(response)
  {
  }

  // ---------------------------------------------------------------------
  // Answered areas
  // ---------------------------------------------------------------------

  /** `r?.trim()` is truthy: the field is present and not blank. */
  predicate HasText(r: Option<string>)
  {
    r.Some? && NonBlank(r.value)
  }

  /** An area has a non-blank response or some trigger has one. */
  predicate Answered(a: Area)
  {
    HasText(a.response) || exists k :: 0 <= k < |TriggersOf(a)| && HasText(TriggersOf(a)[k].response)
  }

  /** answeredInterests: how many areas are answered. */
  function AnsweredCount(areas: seq<Area>): (n: nat)
    ensures n <= |areas|
    ensures n == 0 <==> forall i :: 0 <= i < |areas| ==> !Answered(areas[i])
    ensures n == |areas| <==> forall i :: 0 <= i < |areas| ==> Answered(areas[i])
  {
    if |areas| == 0 then 0
    else
      var prefix := areas[..|areas| - 1];
      assert forall i :: 0 <= i < |prefix| ==> prefix[i] == areas[i];
      AnsweredCount(prefix) + (if Answered(areas[|areas| - 1]) then 1 else 0)
  }

  // ---------------------------------------------------------------------
  // Submission fold
  // ---------------------------------------------------------------------

  /** One entry of an area's `trigger_dict`. */
  datatype Entry =
    | General(value: string, shared: bool)
    | TriggerAnswer(triggerId: int, value: string, shared: bool)

  type TriggerDict = map<string, Entry>

  const GeneralKey: string := "general_response"

  /** `interest_name || "interest_" + interest_area_id`. */
  function AreaKey(a: Area): string
  {
    if a.name.Some? && a.name.value != "" then a.name.value else "interest_" + IntToString(a.id)
  }

  /** The property key a trigger's name becomes. */
  function TriggerKey(t: Trigger): string
  {
    ToJsString(t.name)
  }

  /** The general-response part of an area's `trigger_dict`. */
  function GeneralEntries(a: Area): TriggerDict
  {
    if HasText(a.response) then map[GeneralKey := General(a.response.value, a.shared)] else map[]
  }

  /**
   * The one key an assignment on a plain object does not store: writing
   * `o["__proto__"]` runs the prototype setter inherited from
   * `Object.prototype`, which creates no own property, so neither
   * `Object.keys` nor `JSON.stringify` sees the value.
   */
  const ProtoKey: string := "__proto__"

  /** Assigning to this key of a plain object creates an own property. */
  predicate IsOwnKey(k: string)
  {
    k != ProtoKey
  }

  /** A trigger the trigger loop stores: answered, and named other than `__proto__`. */
  predicate StoredTrigger(t: Trigger)
  {
    HasText(t.response) && IsOwnKey(TriggerKey(t))
  }

  /** An area whose `trigger_dict` ends up with some own key. */
  predicate Contributes(a: Area)
  {
    HasText(a.response) || exists k :: 0 <= k < |TriggersOf(a)| && StoredTrigger(TriggersOf(a)[k])
  }

  /** No area key and no trigger name is `__proto__`. */
  predicate NoProtoKeys(areas: seq<Area>)
  {
    forall i :: 0 <= i < |areas| ==>
      && IsOwnKey(AreaKey(areas[i]))
      && forall k :: 0 <= k < |TriggersOf(areas[i])| ==> IsOwnKey(TriggerKey(TriggersOf(areas[i])[k]))
  }

  /** One step of the trigger loop: an answered trigger is stored under its name. */
  function AddTrigger(dict: TriggerDict, t: Trigger): TriggerDict
  {
    if StoredTrigger(t) then dict[TriggerKey(t) := TriggerAnswer(t.id, t.response.value, t.shared)] else dict
  }

  /** The trigger loop over `ts`, starting from `dict`. */
  function FoldTriggers(dict: TriggerDict, ts: seq<Trigger>): TriggerDict
  {
    if |ts| == 0 then dict else AddTrigger(FoldTriggers(dict, ts[..|ts| - 1]), ts[|ts| - 1])
  }

  /** The `trigger_dict` built for one area. */
  function TriggerDictOf(a: Area): TriggerDict
  {
    FoldTriggers(GeneralEntries(a), TriggersOf(a))
  }

  /** One step of the area loop: an area with a non-empty `trigger_dict` is stored under its key. */
  function AddArea(dict: map<string, TriggerDict>, a: Area): map<string, TriggerDict>
  {
    var td := TriggerDictOf(a);
    if td != map[] && IsOwnKey(AreaKey(a)) then dict[AreaKey(a) := td] else dict
  }

  /** The `interest_area_dict` of the submitted diary. */
  function FoldAreas(areas: seq<Area>): map<string, TriggerDict>
  {
    if |areas| == 0 then map[] else AddArea(FoldAreas(areas[..|areas| - 1]), areas[|areas| - 1])
  }

  /** The keys the trigger loop writes are the names of the answered triggers. */
  lemma {:induction false} FoldTriggersKeys(dict: TriggerDict, ts: seq<Trigger>)
    ensures forall k :: k in FoldTriggers(dict, ts) <==>
              k in dict || exists i :: 0 <= i < |ts| && StoredTrigger(ts[i]) && TriggerKey(ts[i]) == k
  {
    if |ts| > 0 {
      var prefix := ts[..|ts| - 1];
      FoldTriggersKeys(dict, prefix);
      assert forall i :: 0 <= i < |prefix| ==> prefix[i] == ts[i];
    }
  }

  /** A key no answered trigger is named after keeps its starting entry. */
  lemma {:induction false} FoldTriggersKeeps(dict: TriggerDict, ts: seq<Trigger>, k: string)
    requires forall i :: 0 <= i < |ts| && StoredTrigger(ts[i]) ==> TriggerKey(ts[i]) != k
    ensures k in FoldTriggers(dict, ts) <==> k in dict
    ensures k in dict ==> FoldTriggers(dict, ts)[k] == dict[k]
  {
    if |ts| > 0 {
      var prefix := ts[..|ts| - 1];
      assert forall i :: 0 <= i < |prefix| ==> prefix[i] == ts[i];
      FoldTriggersKeeps(dict, prefix, k);
    }
  }

  /** A trigger's answer is what its name maps to unless a later answered trigger has the same name. */
  lemma {:induction false} FoldTriggersLastWins(dict: TriggerDict, ts: seq<Trigger>, i: nat)
    requires i < |ts| && StoredTrigger(ts[i])
    requires forall j :: i < j < |ts| && StoredTrigger(ts[j]) ==> TriggerKey(ts[j]) != TriggerKey(ts[i])
    ensures TriggerKey(ts[i]) in FoldTriggers(dict, ts)
    ensures FoldTriggers(dict, ts)[TriggerKey(ts[i])] == TriggerAnswer(ts[i].id, ts[i].response.value, ts[i].shared)
  {
    var prefix := ts[..|ts| - 1];
    assert forall j :: 0 <= j < |prefix| ==> prefix[j] == ts[j];
    if i < |ts| - 1 {
      FoldTriggersLastWins(dict, prefix, i);
    }
  }

  /**
   * The keys of an area's `trigger_dict`: `general_response` when the area's
   * own response is non-blank, and the name of every answered trigger
   * other than `__proto__`.
   */
  lemma TriggerDictKeys(a: Area)
    ensures forall k :: k in TriggerDictOf(a) <==>
              || (k == GeneralKey && HasText(a.response))
              || exists i :: 0 <= i < |TriggersOf(a)| && StoredTrigger(TriggersOf(a)[i]) && TriggerKey(TriggersOf(a)[i]) == k
  {
    FoldTriggersKeys(GeneralEntries(a), TriggersOf(a));
  }

  /**
   * An area's `trigger_dict` is non-empty exactly when the area contributes;
   * a contributing area is answered, and an answered area contributes
   * unless its only answers are to triggers named `__proto__`.
   */
  lemma TriggerDictNonEmpty(a: Area)
    ensures TriggerDictOf(a) != map[] <==> Contributes(a)
    ensures Contributes(a) ==> Answered(a)
    ensures Answered(a) && (forall k :: 0 <= k < |TriggersOf(a)| ==> IsOwnKey(TriggerKey(TriggersOf(a)[k]))) ==> Contributes(a)
  {
    TriggerDictKeys(a);
    if Contributes(a) {
      if HasText(a.response) {
        assert GeneralKey in TriggerDictOf(a);
      } else {
        var k :| 0 <= k < |TriggersOf(a)| && StoredTrigger(TriggersOf(a)[k]);
        assert TriggerKey(TriggersOf(a)[k]) in TriggerDictOf(a);
      }
    }
  }

  /**
   * `general_response` holds the area's untrimmed response and sharing flag,
   * unless an answered trigger is itself named `general_response`.
   */
  lemma GeneralResponseEntry(a: Area)
    requires forall i :: 0 <= i < |TriggersOf(a)| && StoredTrigger(TriggersOf(a)[i]) ==> TriggerKey(TriggersOf(a)[i]) != GeneralKey
    ensures GeneralKey in TriggerDictOf(a) <==> HasText(a.response)
    ensures HasText(a.response) ==> TriggerDictOf(a)[GeneralKey] == General(a.response.value, a.shared)
  {
    FoldTriggersKeeps(GeneralEntries(a), TriggersOf(a), GeneralKey);
  }

  /**
   * An answered trigger not named `__proto__` is stored under its name with
   * its id, untrimmed response and sharing flag, unless a later stored
   * trigger of the same area has the same name.
   */
  lemma TriggerAnswerEntry(a: Area, i: nat)
    requires i < |TriggersOf(a)| && StoredTrigger(TriggersOf(a)[i])
    requires forall j :: i < j < |TriggersOf(a)| && StoredTrigger(TriggersOf(a)[j]) ==> TriggerKey(TriggersOf(a)[j]) != TriggerKey(TriggersOf(a)[i])
    ensures var t := TriggersOf(a)[i];
            TriggerKey(t) in TriggerDictOf(a) && TriggerDictOf(a)[TriggerKey(t)] == TriggerAnswer(t.id, t.response.value, t.shared)
  {
    FoldTriggersLastWins(GeneralEntries(a), TriggersOf(a), i);
  }

  /** The keys of `interest_area_dict` are the keys, other than `__proto__`, of the contributing areas. */
  lemma {:induction false} FoldAreasKeys(areas: seq<Area>)
    ensures forall k :: k in FoldAreas(areas) <==>
              IsOwnKey(k) && exists i :: 0 <= i < |areas| && Contributes(areas[i]) && AreaKey(areas[i]) == k
  {
    if |areas| > 0 {
      var prefix := areas[..|areas| - 1];
      FoldAreasKeys(prefix);
      assert forall i :: 0 <= i < |prefix| ==> prefix[i] == areas[i];
      TriggerDictNonEmpty(areas[|areas| - 1]);
    }
  }

  /**
   * A contributing area's `trigger_dict` is stored under its key, when that
   * key is not `__proto__`, unless a later contributing area has the same key.
   */
  lemma {:induction false} FoldAreasLastWins(areas: seq<Area>, i: nat)
    requires i < |areas| && Contributes(areas[i]) && IsOwnKey(AreaKey(areas[i]))
    requires forall j :: i < j < |areas| && Contributes(areas[j]) ==> AreaKey(areas[j]) != AreaKey(areas[i])
    ensures AreaKey(areas[i]) in FoldAreas(areas)
    ensures FoldAreas(areas)[AreaKey(areas[i])] == TriggerDictOf(areas[i])
  {
    var prefix := areas[..|areas| - 1];
    assert forall j :: 0 <= j < |prefix| ==> prefix[j] == areas[j];
    TriggerDictNonEmpty(areas[|areas| - 1]);
    if i < |areas| - 1 {
      FoldAreasLastWins(prefix, i);
    }
  }

  /**
   * With distinct area keys, the submitted dictionary has at most one key
   * per answered area, and exactly one when no key is `__proto__`.
   */
  lemma {:induction false} SubmittedAreasMatchCount(areas: seq<Area>)
    requires forall i, j :: 0 <= i < j < |areas| ==> AreaKey(areas[i]) != AreaKey(areas[j])
    ensures |FoldAreas(areas)| <= AnsweredCount(areas)
    ensures NoProtoKeys(areas) ==> |FoldAreas(areas)| == AnsweredCount(areas)
  {
    if |areas| > 0 {
      var prefix := areas[..|areas| - 1];
      var last := areas[|areas| - 1];
      assert forall i :: 0 <= i < |prefix| ==> prefix[i] == areas[i];
      SubmittedAreasMatchCount(prefix);
      FoldAreasKeys(prefix);
      TriggerDictNonEmpty(last);
      assert AreaKey(last) !in FoldAreas(prefix);
      assert NoProtoKeys(areas) ==> NoProtoKeys(prefix);
    }
  }

  /**
   * An area answered only through a trigger named `__proto__` counts as
   * answered but submits nothing.
   */
  lemma ProtoTriggerDropped()
    ensures var areas := [Area(1, Some("Sono"), Some(""), false, Some([Trigger(Str(ProtoKey), 1, Some("x"), false)]))];
            FoldAreas(areas) == map[] && AnsweredCount(areas) == 1
  {
    var t := Trigger(Str(ProtoKey), 1, Some("x"), false);
    var a := Area(1, Some("Sono"), Some(""), false, Some([t]));
    NonBlankIff("");
    NonBlankIff("x");
    assert !IsJsWhitespace("x"[0]);
    assert HasText(t.response) && !StoredTrigger(t);
    assert TriggersOf(a) == [t];
    assert HasText(TriggersOf(a)[0].response);
    assert Answered(a);
    assert !HasText(a.response);
    assert GeneralEntries(a) == map[];
    assert [t][..0] == [];
    assert FoldTriggers(map[], [t]) == AddTrigger(map[], t) == map[];
    assert TriggerDictOf(a) == map[];
    assert [a][..0] == [];
  }

  /** `r?.trim() !== ""`: true for a missing response, since `undefined !== ""`. */
  predicate ResponseNotEmpty(r: Option<string>)
  {
    r.None? || NonBlank(r.value)
  }

  /**
   * The first filter of handleSubmit (`response?.trim() !== ""` or some
   * trigger's likewise); it lets a missing response through.
   */
  predicate PassesFilter(a: Area)
  {
    || ResponseNotEmpty(a.response)
    || (a.triggers.Some? && exists k :: 0 <= k < |a.triggers.value| && ResponseNotEmpty(a.triggers.value[k].response))
  }

  /** Areas the first filter drops would have contributed nothing anyway. */
  lemma FilteredOutIsEmpty(a: Area)
    requires !PassesFilter(a)
    ensures TriggerDictOf(a) == map[]
  {
    TriggerDictNonEmpty(a);
  }

  /**
   * The body of handleSubmit's per-area loop: the `general_response` entry
   * and then each answered trigger, assigned on a plain object.
   */
  method BuildTriggerDict(area: Area) returns (triggerDict: TriggerDict)
    ensures triggerDict == TriggerDictOf(area)
  {
    triggerDict := map[];
    if HasText(area.response) {
      triggerDict := triggerDict[GeneralKey := General(area.response.value, area.shared)];
    }
    var ts := TriggersOf(area);
    var j := 0;
    while j < |ts|
      invariant 0 <= j <= |ts|
      invariant triggerDict == FoldTriggers(GeneralEntries(area), ts[..j])
    {
      var t := ts[j];
      assert ts[..j + 1][..j] == ts[..j];
      if HasText(t.response) {
        var name := TriggerKey(t);
        // Assigning `__proto__` replaces the prototype and adds no key.
        if IsOwnKey(name) {
          triggerDict := triggerDict[name := TriggerAnswer(t.id, t.response.value, t.shared)];
        }
      }
      j := j + 1;
    }
    assert ts[..|ts|] == ts;
  }

  /**
   * The fold of handleSubmit: keeps the answered areas and, inside each,
   * the non-blank area response and the answered triggers keyed by name.
   */
  method BuildInterestAreaDict(areas: seq<Area>) returns (dict: map<string, TriggerDict>)
    ensures dict == FoldAreas(areas)
  {
    dict := map[];
    var i := 0;
    while i < |areas|
      invariant 0 <= i <= |areas|
      invariant dict == FoldAreas(areas[..i])
    {
      var area := areas[i];
      assert areas[..i + 1][..i] == areas[..i];
      if PassesFilter(area) {
        var key := AreaKey(area);
        var triggerDict := BuildTriggerDict(area);
        if |triggerDict| > 0 && IsOwnKey(key) {
          dict := dict[key := triggerDict];
        } else if |triggerDict| == 0 {
          assert triggerDict == map[];
        }
      } else {
        FilteredOutIsEmpty(area);
      }
      i := i + 1;
    }
    assert areas[..|areas|] == areas;
  }

  /** Some area's own sharing flag is set. */
  function AnyAreaShared(areas: seq<Area>): (r: bool)
    ensures r <==> exists i :: 0 <= i < |areas| && areas[i].shared
  {
    if |areas| == 0 then false
    else
      assert forall i :: 1 <= i < |areas| ==> areas[1..][i - 1] == areas[i];
      areas[0].shared || AnyAreaShared(areas[1..])
  }

  /** `diary_shared`: the free text is shared or some area is; trigger flags play no part. */
  lemma TriggerSharingIgnored(shareText: bool, areas: seq<Area>, areas': seq<Area>)
    requires |areas| == |areas'|
    requires forall i :: 0 <= i < |areas| ==> areas[i].shared == areas'[i].shared
    ensures (shareText || AnyAreaShared(areas)) == (shareText || AnyAreaShared(areas'))
  {
  }

  datatype DateRangeType = Today | SinceLast

  /** The diary handleSubmit posts. */
  datatype Diary = Diary(
    dateRangeType: DateRangeType,
    text: string,
    textShared: bool,
    diaryShared: bool,
    interestAreaDict: map<string, TriggerDict>)

  /** handleSubmit up to the POST: the diary built from the form's state. */
  method BuildDiary(areas: seq<Area>, timeRange: string, freeText: string, shareText: bool) returns (d: Diary)
    ensures d.dateRangeType == Today <==> timeRange == "today"
    ensures d.text == freeText && d.textShared == shareText
    ensures d.diaryShared <==> shareText || exists i :: 0 <= i < |areas| && areas[i].shared
    ensures d.interestAreaDict == FoldAreas(areas)
  {
    var interestAreaDict := BuildInterestAreaDict(areas);
    var diaryShared := shareText || AnyAreaShared(areas);
    d := Diary(if timeRange == "today" then Today else SinceLast, freeText, shareText, diaryShared, interestAreaDict);
  }

  /**
   * A non-blank answer typed into an area puts that area's key into the
   * submitted dictionary, unless the key is `__proto__`.
   */
  lemma AnsweredAreaIsSubmitted(areas: seq<Area>, i: nat, text: string)
    requires i < |areas| && NonBlank(text)
    ensures AreaKey(areas[i]) in FoldAreas(SetAreaResponse(areas, areas[i].id, text)) <==> IsOwnKey(AreaKey(areas[i]))
  {
    var r := SetAreaResponse(areas, areas[i].id, text);
    assert Contributes(r[i]) && AreaKey(r[i]) == AreaKey(areas[i]);
    FoldAreasKeys(r);
  }

  /** A catalog with the single area "Sleep" asking two questions, numbered from observation 10. */
  const SleepCatalog: Option<CatalogResponse> :=
    Some(CatalogResponse(Some([("Sleep", Arr([Str("How many hours?"), Str("Quality?")]))]), Some(10)))

  /** The form state after normalising that catalog. */
  const SleepAreas: seq<Area> :=
    [Area(10, Some("Sleep"), Some(""), false,
          Some([Trigger(Str("How many hours?"), 0, Some(""), false), Trigger(Str("Quality?"), 1, Some(""), false)]))]

  /** Normalising that catalog gives area 10 holding triggers 0 and 1, all unanswered. */
  lemma SleepNormalised()
    ensures Normalise(SleepCatalog) == SleepAreas
  {
    var names := [Str("How many hours?"), Str("Quality?")];
    assert names[0] != names[1];
    assert IndexOf(names, 0) == 0;
    assert IndexOfFrom(names, 1, 1) == 1;
    assert IndexOf(names, 1) == 1;
    var entries := DictEntries(SleepCatalog);
    assert entries == [("Sleep", Arr(names))];
    assert CoerceTriggers(entries[0].1) == names;
    var a := NormaliseArea(entries[0], 10, 0);
    assert a.triggers.value == SleepAreas[0].triggers.value;
    assert a == SleepAreas[0];
  }

  /** Answering only "Quality?" with "Good" submits exactly that answer and no `general_response`. */
  lemma SleepSubmitted()
    ensures FoldAreas(SetTriggerResponse(SleepAreas, 10, 1, "Good"))
            == map["Sleep" := map["Quality?" := TriggerAnswer(1, "Good", false)]]
  {
    NonBlankIff("");
    NonBlankIff("Good");
    assert !IsJsWhitespace("Good"[0]);
    assert !HasText(Some("")) && HasText(Some("Good"));
    var t0 := Trigger(Str("How many hours?"), 0, Some(""), false);
    var t1 := Trigger(Str("Quality?"), 1, Some("Good"), false);
    var area := Area(10, Some("Sleep"), Some(""), false, Some([t0, t1]));
    var edited := SetTriggerResponse(SleepAreas, 10, 1, "Good");
    assert edited[0].triggers.value == [t0, t1];
    assert edited == [area];
    assert GeneralEntries(area) == map[];
    var ts := [t0, t1];
    assert ts[..1][..0] == [];
    assert FoldTriggers(map[], ts[..1]) == map[];
    assert TriggerKey(t1) == "Quality?";
    assert FoldTriggers(map[], ts) == map["Quality?" := TriggerAnswer(1, "Good", false)];
    assert TriggerDictOf(area) == map["Quality?" := TriggerAnswer(1, "Good", false)];
    assert AreaKey(area) == "Sleep";
    assert [area][..0] == [];
    assert FoldAreas([area]) == AddArea(map[], area);
    var td := map["Quality?" := TriggerAnswer(1, "Good", false)];
    assert "Quality?" in td;
    assert AddArea(map[], area) == map[][AreaKey(area) := td];
    assert FoldAreas(edited) == map["Sleep" := td];
  }
}
