/** The edit page of one parcel (src/pages/ParcelDetail.tsx): the edit form
    and its per-field checks, the change test and the change-set sent to the
    history, the required-field gate of `save`, the step counter, the notes
    list and the history filter. The page's state is a class whose fields are
    its `useState` variables; the awaited API calls are parameters, and the
    backend calls each handler starts are its result. */
module ParcelDetail {
  import opened Text
  import opened Values

  // ---------------------------------------------------------------------------
  // Per-field checks (setField)

  /** JavaScript's `Number(v)`, with the conversion of a string passed in. Objects and arrays give NaN. */
  function ToNumber(v: Value, parse: string -> Num): Num {
    match v
    case Undefined => NaN
    case Null => Finite(0.0)
    case Bool(b) => if b then Finite(1.0) else Finite(0.0)
    case Number(n) => n
    case Str(s) => parse(s)
    case Composite(_) => NaN
  }

  /** `Number.isFinite(n) && lo <= n && n <= hi`. */
  predicate FiniteWithin(n: Num, lo: real, hi: real) {
    n.Finite? && lo <= n.r <= hi
  }

  /** The message `setField` stores in `errors[k]`: a finite positive area, a
      finite latitude in [-90, 90] and a finite longitude in [-180, 180] are
      accepted, and every other key is never in error. */
  function FieldError(k: string, v: Value, parse: string -> Num): (msg: string)
    ensures msg in {"", "Superficie invalide", "Latitude invalide", "Longitude invalide"}
    ensures k == "area" ==>
              (msg == "" <==> ToNumber(v, parse).Finite? && ToNumber(v, parse).r > 0.0) &&
              (msg != "" ==> msg == "Superficie invalide")
    ensures k == "gps_lat" ==>
              (msg == "" <==> FiniteWithin(ToNumber(v, parse), -90.0, 90.0)) &&
              (msg != "" ==> msg == "Latitude invalide")
    ensures k == "gps_long" ==>
              (msg == "" <==> FiniteWithin(ToNumber(v, parse), -180.0, 180.0)) &&
              (msg != "" ==> msg == "Longitude invalide")
    ensures k !in {"area", "gps_lat", "gps_long"} ==> msg == ""
  {
    var n := ToNumber(v, parse);
    if k == "area" then
      (if !n.Finite? || n.r <= 0.0 then "Superficie invalide" else "")
    else if k == "gps_lat" then
      (if !n.Finite? || n.r < -90.0 || n.r > 90.0 then "Latitude invalide" else "")
    else if k == "gps_long" then
      (if !n.Finite? || n.r < -180.0 || n.r > 180.0 then "Longitude invalide" else "")
    else ""
  }

  // ---------------------------------------------------------------------------
  // The edit form, the change test and the change-set

  /** The thirty keys the page copies from the loaded parcel into the form. */
  const EditableKeys: seq<string> := [
    "reference", "parcel_number", "province", "territory_or_city", "commune_or_sector", "quartier_or_cheflieu",
    "avenue", "gps_lat", "gps_long", "area", "location", "status", "land_use", "certificate_number",
    "issuing_authority", "acquisition_type", "acquisition_act_ref", "title_date", "owner_name", "owner_id_number",
    "company_name", "rccm", "nif", "surveying_pv_ref", "surveyor_name", "surveyor_license", "cadastral_plan_ref",
    "servitudes", "charges", "litigation"
  ]

  /** The form `load` builds: every editable key, with the parcel's value
      (undefined when the parcel lacks it). */
  function FormOf(p: Obj): (form: Obj)
    ensures forall k :: k in form <==> k in EditableKeys
    ensures forall k :: k in form ==> form[k] == Get(p, k)
  {
    map k | k in EditableKeys :: Get(p, k)
  }

  /** `form[k] !== parcel[k]`. */
  predicate Differs(form: Obj, p: Obj, k: string) {
    !StrictEquals(Get(form, k), Get(p, k))
  }

  /** What `hasChanges` computes: a parcel is loaded and some key of the form
      holds a value that is not `===` the parcel's. */
  predicate Changed(parcel: Option<Obj>, form: Obj) {
    parcel.Some? && exists k :: k in form && Differs(form, parcel.value, k)
  }

  /** One entry of the change-set: `{ from: stored, to: form }`. */
  datatype Change = Change(from: Value, to: Value)

  /** The change-set `save` builds: the form keys whose value differs from the
      stored one, each with the stored and the edited value. */
  function ChangeSet(form: Obj, p: Obj): (changes: map<string, Change>)
    ensures forall k :: k in changes <==> k in form && Differs(form, p, k)
    ensures forall k :: k in changes ==> changes[k] == Change(Get(p, k), form[k])
  {
    map k | k in form && Differs(form, p, k) :: Change(Get(p, k), form[k])
  }

  /** The change-set is non-empty, so a history entry is posted, exactly when
      `hasChanges` holds. */
  lemma ChangeSetNonEmptyIffChanged(form: Obj, p: Obj)
    ensures |ChangeSet(form, p)| > 0 <==> Changed(Some(p), form)
  {
    var changes := ChangeSet(form, p);
    if |changes| > 0 {
      var k :| k in changes;
      assert k in form && Differs(form, p, k);
    } else {
      assert changes == map[];
      forall k | k in form ensures !Differs(form, p, k) {
        assert k !in changes;
      }
    }
  }

  /** Right after `load`, the form of a parcel that came out of JSON shows no
      change: every value is `===` to itself, since none is NaN. */
  lemma LoadedFormUnchanged(p: Obj)
    requires JsonObject(p)
    ensures !Changed(Some(p), FormOf(p))
    ensures ChangeSet(FormOf(p), p) == map[]
  {
    var form := FormOf(p);
    forall k | k in form ensures !Differs(form, p, k) {
      assert form[k] == Get(p, k);
      assert k in p ==> IsJson(p[k]);
    }
    assert ChangeSet(form, p).Keys == {};
  }

  /** The fourteen keys `validateRequired` checks, in order. */
  const EditRequired: seq<string> := [
    "parcel_number", "province", "territory_or_city", "commune_or_sector", "quartier_or_cheflieu", "avenue",
    "area", "status", "land_use", "acquisition_type", "acquisition_act_ref", "title_date", "owner_name",
    "owner_id_number"
  ]

  // ---------------------------------------------------------------------------
  // The step counter

  /** The number of form sections; the step is an index into them. */
  const StepCount := 6

  function PrevStep(s: int): (r: int)
    ensures r == Max(0, s - 1)
    ensures 0 <= s < StepCount ==> 0 <= r < StepCount && r <= s
  {
    if s - 1 >= 0 then s - 1 else 0
  }

  function NextStep(s: int): (r: int)
    ensures r == Min(StepCount - 1, s + 1)
    ensures 0 <= s < StepCount ==> 0 <= r < StepCount && r >= s
  {
    if StepCount - 1 <= s + 1 then StepCount - 1 else s + 1
  }

  /** Going forward then back returns to the step, except from the last one. */
  lemma NextThenPrev(s: int)
    requires 0 <= s < StepCount - 1
    ensures PrevStep(NextStep(s)) == s
    ensures NextStep(s) == s + 1 && PrevStep(s + 1) == s
  {
  }

  // ---------------------------------------------------------------------------
  // Notes

  datatype Note = Note(id: string, parcelId: string, note: string, author: string, createdAt: string)

  function Prepend(added: Note, notes: seq<Note>): (r: seq<Note>)
    ensures |r| == |notes| + 1 && r[0] == added && r[1..] == notes
  {
    [added] + notes
  }

  /** `notes.map(x => x.id === id ? updated : x)`. */
  function ReplaceNote(notes: seq<Note>, id: string, updated: Note): (r: seq<Note>)
    ensures |r| == |notes|
    ensures forall i :: 0 <= i < |r| ==> r[i] == (if notes[i].id == id then updated else notes[i])
  {
    if notes == [] then []
    else [if notes[0].id == id then updated else notes[0]] + ReplaceNote(notes[1..], id, updated)
  }

  /** `notes.filter(x => x.id !== id)`. */
  function RemoveNote(notes: seq<Note>, id: string): (r: seq<Note>)
    ensures |r| <= |notes|
    ensures forall n :: n in r <==> n in notes && n.id != id
  {
    if notes == [] then []
    else if notes[0].id == id then RemoveNote(notes[1..], id)
    else [notes[0]] + RemoveNote(notes[1..], id)
  }

  /** Removing works segment by segment, so the remaining notes keep their
      order. */
  lemma {:induction false} RemoveNoteConcat(a: seq<Note>, b: seq<Note>, id: string)
    ensures RemoveNote(a + b, id) == RemoveNote(a, id) + RemoveNote(b, id)
  {
    if a == [] {
      assert a + b == b;
    } else {
      assert (a + b)[0] == a[0] && (a + b)[1..] == a[1..] + b;
      RemoveNoteConcat(a[1..], b, id);
    }
  }

  /** Removing deletes every copy of the notes with that id and keeps every
      other note as many times as it occurred. */
  lemma {:induction false} RemoveNoteCounts(notes: seq<Note>, id: string, n: Note)
    ensures multiset(RemoveNote(notes, id))[n] == if n.id == id then 0 else multiset(notes)[n]
  {
    if notes != [] {
      RemoveNoteCounts(notes[1..], id, n);
      assert notes == [notes[0]] + notes[1..];
    }
  }

  /** Deleting a note just added, whose id was not yet in the list, gives the
      list back. */
  lemma {:induction false} RemoveAfterPrepend(added: Note, notes: seq<Note>)
    requires forall i :: 0 <= i < |notes| ==> notes[i].id != added.id
    ensures RemoveNote(Prepend(added, notes), added.id) == notes
  {
    assert Prepend(added, notes)[1..] == notes;
    RemoveAbsent(notes, added.id);
  }

  /** Deleting an id no note has changes nothing. */
  lemma {:induction false} RemoveAbsent(notes: seq<Note>, id: string)
    requires forall i :: 0 <= i < |notes| ==> notes[i].id != id
    ensures RemoveNote(notes, id) == notes
  {
    if notes != [] {
      RemoveAbsent(notes[1..], id);
    }
  }

  /** Editing a note and then deleting its id is deleting it directly. */
  lemma {:induction false} RemoveAfterReplace(notes: seq<Note>, id: string, updated: Note)
    requires updated.id == id
    ensures RemoveNote(ReplaceNote(notes, id, updated), id) == RemoveNote(notes, id)
  {
    if notes != [] {
      RemoveAfterReplace(notes[1..], id, updated);
      assert ReplaceNote(notes, id, updated)[1..] == ReplaceNote(notes[1..], id, updated);
    }
  }

  // ---------------------------------------------------------------------------
  // The history filter

  datatype HistoryEntry = HistoryEntry(id: string, parcelId: string, changes: string, changedAt: string, user: string)

  /** What `Object.keys(JSON.parse(text))` gives: the keys, or a thrown error. */
  datatype ParsedChanges = ChangedKeys(keys: seq<string>) | Unparseable

  /** `h.changes || '{}'`. */
  function ChangesText(h: HistoryEntry): string {
    if h.changes == "" then "{}" else h.changes
  }

  /** `new Date(s)` as a time value, `None` for an invalid date, passed in as `time`. */
  predicate NotBefore(time: string -> Option<int>, s: string, bound: string) {
    time(s).Some? && time(bound).Some? && time(s).value >= time(bound).value
  }

  predicate NotAfter(time: string -> Option<int>, s: string, bound: string) {
    time(s).Some? && time(bound).Some? && time(s).value <= time(bound).value
  }

  /** The date part of the filter: an empty bound imposes nothing, and an
      invalid date fails every comparison. */
  predicate DateKept(time: string -> Option<int>, h: HistoryEntry, from: string, to: string) {
    (from == "" || NotBefore(time, h.changedAt, from)) && (to == "" || NotAfter(time, h.changedAt, to))
  }

  /** The text part: a blank filter imposes nothing; otherwise some changed
      key must contain the trimmed filter, both lower-cased, and changes that
      do not parse are dropped. */
  predicate TextKept(parse: string -> ParsedChanges, h: HistoryEntry, filter: string) {
    var needle := ToLower(JsTrim(filter));
    JsTrim(filter) == "" ||
    match parse(ChangesText(h))
    case Unparseable => false
    case ChangedKeys(keys) => exists i :: 0 <= i < |keys| && Contains(ToLower(keys[i]), needle)
  }

  predicate Kept(parse: string -> ParsedChanges, time: string -> Option<int>, h: HistoryEntry,
                 filter: string, from: string, to: string) {
    DateKept(time, h, from, to) && TextKept(parse, h, filter)
  }

  /** The text test in terms of positions: a non-blank filter keeps an entry
      exactly when its changes parse and the lower-cased filter occurs at some
      offset of some lower-cased key. */
  lemma TextKeptMeans(parse: string -> ParsedChanges, h: HistoryEntry, filter: string)
    ensures TextKept(parse, h, filter) <==>
              IsBlank(filter) ||
              (parse(ChangesText(h)).ChangedKeys? &&
               exists i, j :: 0 <= i < |parse(ChangesText(h)).keys| &&
                              OccursAt(ToLower(parse(ChangesText(h)).keys[i]), ToLower(JsTrim(filter)), j))
  {
    var needle := ToLower(JsTrim(filter));
    if !IsBlank(filter) && parse(ChangesText(h)).ChangedKeys? {
      var keys := parse(ChangesText(h)).keys;
      forall i | 0 <= i < |keys|
        ensures Contains(ToLower(keys[i]), needle) <==> exists j :: OccursAt(ToLower(keys[i]), needle, j)
      {
        ContainsAt(ToLower(keys[i]), needle);
      }
    }
  }

  /** The entries the history tab shows, in their order. */
  function VisibleHistory(parse: string -> ParsedChanges, time: string -> Option<int>, history: seq<HistoryEntry>,
                          filter: string, from: string, to: string): (r: seq<HistoryEntry>)
    ensures |r| <= |history|
    ensures forall h :: h in r <==> h in history && Kept(parse, time, h, filter, from, to)
  {
    if history == [] then []
    else
      var rest := VisibleHistory(parse, time, history[1..], filter, from, to);
      if Kept(parse, time, history[0], filter, from, to) then [history[0]] + rest else rest
  }

  /** The filter works segment by segment: the entries shown for two runs of
      history are those shown for each, in order, so the kept entries keep
      their order and their multiplicity. */
  lemma {:induction false} VisibleHistoryConcat(parse: string -> ParsedChanges, time: string -> Option<int>,
                                                a: seq<HistoryEntry>, b: seq<HistoryEntry>,
                                                filter: string, from: string, to: string)
    ensures VisibleHistory(parse, time, a + b, filter, from, to) ==
              VisibleHistory(parse, time, a, filter, from, to) + VisibleHistory(parse, time, b, filter, from, to)
  {
    if a != [] {
      assert (a + b)[0] == a[0] && (a + b)[1..] == a[1..] + b;
      VisibleHistoryCons(parse, time, a + b, filter, from, to);
      VisibleHistoryCons(parse, time, a, filter, from, to);
      VisibleHistoryConcat(parse, time, a[1..], b, filter, from, to);
    } else {
      assert a + b == b;
    }
  }

  /** One step of the filter: the first entry, when kept, comes before what
      the rest shows. */
  lemma VisibleHistoryCons(parse: string -> ParsedChanges, time: string -> Option<int>, history: seq<HistoryEntry>,
                           filter: string, from: string, to: string)
    requires history != []
    ensures VisibleHistory(parse, time, history, filter, from, to) ==
              (if Kept(parse, time, history[0], filter, from, to) then [history[0]] else []) +
              VisibleHistory(parse, time, history[1..], filter, from, to)
  {
  }

  /** A single entry is shown exactly when it passes the filter. */
  lemma VisibleHistoryOne(parse: string -> ParsedChanges, time: string -> Option<int>, h: HistoryEntry,
                          filter: string, from: string, to: string)
    ensures VisibleHistory(parse, time, [h], filter, from, to) ==
              if Kept(parse, time, h, filter, from, to) then [h] else []
  {
    assert [h][1..] == [];
  }

  /** With no date bounds and a blank filter text, every entry is shown. */
  lemma {:induction false} NoFilterShowsAll(parse: string -> ParsedChanges, time: string -> Option<int>,
                                            history: seq<HistoryEntry>, filter: string)
    requires IsBlank(filter)
    ensures VisibleHistory(parse, time, history, filter, "", "") == history
  {
    if history != [] {
      NoFilterShowsAll(parse, time, history[1..], filter);
    }
  }

  /** The key names listed under an entry: the first four keys of its
      changes, none when they do not parse. */
  function ListedKeys(parse: string -> ParsedChanges, h: HistoryEntry): (items: seq<string>)
    ensures |items| <= 4
    ensures parse(ChangesText(h)).Unparseable? ==> items == []
    ensures parse(ChangesText(h)).ChangedKeys? ==>
              |items| == Min(4, |parse(ChangesText(h)).keys|) &&
              items == parse(ChangesText(h)).keys[..|items|]
  {
    match parse(ChangesText(h))
    case Unparseable => []
    case ChangedKeys(keys) => keys[..Min(4, |keys|)]
  }

  // ---------------------------------------------------------------------------
  // Status colours

  /** The badge classes of a status: one colour per known status and grey
      for any other. */
  function StatusColor(status: string): (c: string)
    ensures status == "Libre" ==> c == "bg-green-100 text-green-800 border-green-200"
    ensures status == "En litige" ==> c == "bg-orange-100 text-orange-800 border-orange-200"
    ensures status == "Hypothéqué" ==> c == "bg-red-100 text-red-800 border-red-200"
    ensures status !in {"Libre", "En litige", "Hypothéqué"} ==> c == DefaultColor
  {
    match status
    case "Libre" => "bg-green-100 text-green-800 border-green-200"
    case "En litige" => "bg-orange-100 text-orange-800 border-orange-200"
    case "Hypothéqué" => "bg-red-100 text-red-800 border-red-200"
    case _ => DefaultColor
  }

  const DefaultColor := "bg-gray-100 text-gray-800 border-gray-200"

  /** The three known statuses are told apart, and only they leave grey. */
  lemma StatusColorsDistinct(s: string, t: string)
    requires s in {"Libre", "En litige", "Hypothéqué"}
    ensures StatusColor(s) != DefaultColor
    ensures StatusColor(s) == StatusColor(t) <==> s == t
  {
    if t !in {"Libre", "En litige", "Hypothéqué"} {
      assert StatusColor(t) == DefaultColor;
    }
  }

  // ---------------------------------------------------------------------------
  // The page

  /** The backend calls the page starts. */
  datatype ApiCall =
    | UpdateParcel(parcelId: Value, form: Obj)
    | AddHistory(parcelId: Value, changes: map<string, Change>, user: string)
    | AddNote(parcelId: Value, text: string, author: string)
    | UpdateNote(parcelId: Value, noteId: string, text: string)
    | DeleteNote(parcelId: Value, noteId: string)

  /** The state of the notes tab and of the report box: the notes shown,
      the note being typed, the report being typed and whether its box is
      open, and the note being edited with its edit text. */
  datatype NotesPanel = NotesPanel(notes: seq<Note>, noteText: string, reportText: string, reportOpen: bool,
                                   editingNoteId: Option<string>, editingNoteText: string)

  const EmptyPanel := NotesPanel([], "", "", false, None, "")

  class ParcelEditor {
    var parcel: Option<Obj>
    var form: Obj
    var errors: map<string, string>
    var error: Option<string>
    var step: int
    var history: seq<HistoryEntry>
    var panel: NotesPanel

    predicate Valid()
      reads this
    {
      0 <= step < StepCount
    }

    /** The state before the first load. */
    constructor ()
      ensures Valid()
      ensures parcel == None && form == map[] && errors == map[] && error == None && step == 0
      ensures history == [] && panel == EmptyPanel
    {
      parcel, form, errors, error, step, history := None, map[], map[], None, 0, [];
      panel := EmptyPanel;
    }

    /** `load`, with `ref` the stored reference and the outcomes of the
        awaited lookups as parameters: a failed history or notes lookup shows
        an empty list. */
    method Load(ref: string, fetched: Awaited<Option<Obj>>, hist: Awaited<seq<HistoryEntry>>,
                loadedNotes: Awaited<seq<Note>>)
      requires Valid()
      modifies this
      ensures Valid()
      ensures ref == "" ==> error == Some("Référence manquante")
      ensures ref != "" && fetched.Rejected? ==> error == Some(fetched.message.GetOr("Erreur lors du chargement"))
      ensures ref != "" && fetched == Resolved(None) ==> error == Some("Parcelle introuvable")
      ensures ref == "" || !(fetched.Resolved? && fetched.value.Some?) ==>
                unchanged(this`parcel, this`form, this`step, this`history, this`panel)
      ensures ref != "" && fetched.Resolved? && fetched.value.Some? ==>
                && parcel == fetched.value && form == FormOf(fetched.value.value) && step == 0 && error == None
                && history == (if hist.Resolved? then hist.value else [])
                && panel == old(panel).(notes := if loadedNotes.Resolved? then loadedNotes.value else [])
      ensures unchanged(this`errors)
    {
      if ref == "" {
        error := Some("Référence manquante");
        return;
      }
      match fetched
      case Rejected(m) =>
        error := Some(m.GetOr("Erreur lors du chargement"));
      case Resolved(None) =>
        error := Some("Parcelle introuvable");
      case Resolved(Some(p)) =>
        parcel := Some(p);
        form := FormOf(p);
        history := if hist.Resolved? then hist.value else [];
        panel := panel.(notes := if loadedNotes.Resolved? then loadedNotes.value else []);
        step := 0;
        error := None;
    }

    /** `setField(k, v)`: only `form[k]` and `errors[k]` change. */
    method SetField(k: string, v: Value, parse: string -> Num)
      requires Valid()
      modifies this
      ensures Valid()
      ensures form == old(form)[k := v]
      ensures errors == old(errors)[k := FieldError(k, v, parse)]
      ensures unchanged(this`parcel, this`error, this`step, this`history, this`panel)
    {
      form := form[k := v];
      errors := errors[k := FieldError(k, v, parse)];
    }

    /** `hasChanges`: the loop over the keys of the form with its early return. */
    method HasChanges() returns (changed: bool)
      ensures changed == Changed(parcel, form)
    {
      if parcel.None? {
        return false;
      }
      var p := parcel.value;
      var remaining := form.Keys;
      while remaining != {}
        invariant remaining <= form.Keys
        invariant forall k :: k in form.Keys - remaining ==> !Differs(form, p, k)
        decreases remaining
      {
        var k :| k in remaining;
        if Differs(form, p, k) {
          return true;
        }
        remaining := remaining - {k};
      }
      return false;
    }

    /** `validateRequired`: the first missing key of the fourteen, in order,
        is reported in `error`. */
    method ValidateRequired() returns (ok: bool)
      requires Valid()
      modifies this
      ensures Valid()
      ensures ok <==> FirstMissing(form, EditRequired).None?
      ensures !ok ==> error == Some("Champ requis manquant: " + FirstMissing(form, EditRequired).value)
      ensures ok ==> unchanged(this`error)
      ensures unchanged(this`parcel, this`form, this`errors, this`step, this`history, this`panel)
    {
      var missing := FindMissing(form, EditRequired);
      if missing.Some? {
        error := Some("Champ requis manquant: " + missing.value);
        return false;
      }
      return true;
    }

    /** `save`, with the outcome of the awaited update as a parameter. The
        field errors do not take part: only the required-field gate can stop
        it. On success the change-set is posted to the history when it is not
        empty (its outcome is ignored) and the updated parcel is shown. The
        form itself is kept. */
    method Save(update: Awaited<Obj>) returns (calls: seq<ApiCall>)
      requires Valid()
      modifies this
      ensures Valid()
      ensures old(parcel).None? ==> unchanged(this`parcel, this`error) && calls == []
      ensures old(parcel).Some? && FirstMissing(form, EditRequired).Some? ==>
                error == Some("Champ requis manquant: " + FirstMissing(form, EditRequired).value) &&
                unchanged(this`parcel) && calls == []
      ensures old(parcel).Some? && FirstMissing(form, EditRequired).None? && update.Rejected? ==>
                unchanged(this`parcel) && error == Some(update.message.GetOr("Erreur lors de la mise à jour")) &&
                calls == [UpdateParcel(Get(old(parcel).value, "id"), form)]
      ensures old(parcel).Some? && FirstMissing(form, EditRequired).None? && update.Resolved? ==>
                parcel == Some(update.value) && error == None &&
                calls == [UpdateParcel(Get(old(parcel).value, "id"), form)] +
                        SavedHistory(Get(old(parcel).value, "id"), ChangeSet(form, old(parcel).value))
      ensures unchanged(this`form, this`errors, this`step, this`history, this`panel)
    {
      calls := [];
      if parcel.None? {
        return;
      }
      var p := parcel.value;
      var missing := FindMissing(form, EditRequired);
      if missing.Some? {
        error := Some("Champ requis manquant: " + missing.value);
        return;
      }
      error := None;
      calls := [UpdateParcel(Get(p, "id"), form)];
      match update
      case Rejected(m) =>
        error := Some(m.GetOr("Erreur lors de la mise à jour"));
      case Resolved(updated) =>
        var changes := BuildChangeSet(form, p);
        if |changes| > 0 {
          calls := calls + [AddHistory(Get(p, "id"), changes, "Agent")];
        }
        parcel := Some(updated);
    }

    /** The "previous section" button. */
    method Prev()
      requires Valid()
      modifies this
      ensures Valid()
      ensures step == PrevStep(old(step))
      ensures unchanged(this`parcel, this`form, this`errors, this`error, this`history, this`panel)
    {
      step := PrevStep(step);
    }

    /** The "next section" button. */
    method Next()
      requires Valid()
      modifies this
      ensures Valid()
      ensures step == NextStep(old(step))
      ensures unchanged(this`parcel, this`form, this`errors, this`error, this`history, this`panel)
    {
      step := NextStep(step);
    }

    /** The "add note" button: a blank text, or no parcel, does nothing;
        otherwise the trimmed text is posted as the agent's and, once the call
        resolves, the created note is put first and the input cleared. */
    method AddAgentNote(added: Awaited<Note>) returns (calls: seq<ApiCall>)
      requires Valid()
      modifies this
      ensures Valid() && unchanged(this`parcel, this`form, this`errors, this`error, this`step, this`history)
      ensures old(parcel).None? || IsBlank(old(panel).noteText) ==> unchanged(this`panel) && calls == []
      ensures old(parcel).Some? && !IsBlank(old(panel).noteText) ==>
                calls == [AddNote(Get(old(parcel).value, "id"), JsTrim(old(panel).noteText), "Agent")]
      ensures old(parcel).Some? && !IsBlank(old(panel).noteText) && added.Resolved? ==>
                panel == old(panel).(notes := Prepend(added.value, old(panel).notes), noteText := "")
      ensures added.Rejected? ==> unchanged(this`panel)
    {
      calls := [];
      if parcel.None? || IsBlank(panel.noteText) {
        return;
      }
      calls := [AddNote(Get(parcel.value, "id"), JsTrim(panel.noteText), "Agent")];
      if added.Resolved? {
        panel := panel.(notes := Prepend(added.value, panel.notes), noteText := "");
      }
    }

    /** The "send report" button: like adding a note, with the text prefixed
        by `Signalement: ` and posted as the citizen's; the report box is also
        closed. */
    method SubmitReport(added: Awaited<Note>) returns (calls: seq<ApiCall>)
      requires Valid()
      modifies this
      ensures Valid() && unchanged(this`parcel, this`form, this`errors, this`error, this`step, this`history)
      ensures old(parcel).None? || IsBlank(old(panel).reportText) ==> unchanged(this`panel) && calls == []
      ensures old(parcel).Some? && !IsBlank(old(panel).reportText) ==>
                calls == [AddNote(Get(old(parcel).value, "id"), "Signalement: " + JsTrim(old(panel).reportText), "Citoyen")]
      ensures old(parcel).Some? && !IsBlank(old(panel).reportText) && added.Resolved? ==>
                panel == old(panel).(notes := Prepend(added.value, old(panel).notes), reportText := "",
                                     reportOpen := false)
      ensures added.Rejected? ==> unchanged(this`panel)
    {
      calls := [];
      if parcel.None? || IsBlank(panel.reportText) {
        return;
      }
      calls := [AddNote(Get(parcel.value, "id"), "Signalement: " + JsTrim(panel.reportText), "Citoyen")];
      if added.Resolved? {
        panel := panel.(notes := Prepend(added.value, panel.notes), reportText := "", reportOpen := false);
      }
    }

    /** The pencil button of a note: its text goes into the edit box. */
    method StartEdit(n: Note)
      requires Valid()
      modifies this
      ensures Valid() && unchanged(this`parcel, this`form, this`errors, this`error, this`step, this`history)
      ensures panel == old(panel).(editingNoteId := Some(n.id), editingNoteText := n.note)
    {
      panel := panel.(editingNoteId := Some(n.id), editingNoteText := n.note);
    }

    /** The cancel button of the edit box. */
    method CancelEdit()
      requires Valid()
      modifies this
      ensures Valid() && unchanged(this`parcel, this`form, this`errors, this`error, this`step, this`history)
      ensures panel == old(panel).(editingNoteId := None, editingNoteText := "")
    {
      panel := panel.(editingNoteId := None, editingNoteText := "");
    }

    /** The save button of the edit box (shown only while a note is being
        edited): a blank text does nothing; otherwise the trimmed text is sent
        and, once the call resolves, the note with that id is replaced by the
        returned one and the edit box closed. */
    method SaveEdit(updated: Awaited<Note>) returns (calls: seq<ApiCall>)
      requires Valid()
      modifies this
      ensures Valid() && unchanged(this`parcel, this`form, this`errors, this`error, this`step, this`history)
      ensures old(parcel).None? || old(panel).editingNoteId.None? || IsBlank(old(panel).editingNoteText) ==>
                unchanged(this`panel) && calls == []
      ensures old(parcel).Some? && old(panel).editingNoteId.Some? && !IsBlank(old(panel).editingNoteText) ==>
                calls == [UpdateNote(Get(old(parcel).value, "id"), old(panel).editingNoteId.value,
                                                JsTrim(old(panel).editingNoteText))]
      ensures old(parcel).Some? && old(panel).editingNoteId.Some? && !IsBlank(old(panel).editingNoteText) &&
              updated.Resolved? ==>
                panel == old(panel).(notes := ReplaceNote(old(panel).notes, old(panel).editingNoteId.value, updated.value),
                                     editingNoteId := None, editingNoteText := "")
      ensures updated.Rejected? ==> unchanged(this`panel)
    {
      calls := [];
      if parcel.None? || panel.editingNoteId.None? || IsBlank(panel.editingNoteText) {
        return;
      }
      var id := panel.editingNoteId.value;
      calls := [UpdateNote(Get(parcel.value, "id"), id, JsTrim(panel.editingNoteText))];
      if updated.Resolved? {
        panel := panel.(notes := ReplaceNote(panel.notes, id, updated.value), editingNoteId := None,
                        editingNoteText := "");
      }
    }

    /** The delete button of a note, with the answer to the confirmation
        dialog and the outcome of the call as parameters. */
    method Delete(noteId: string, confirmed: bool, outcome: Awaited<()>) returns (calls: seq<ApiCall>)
      requires Valid()
      modifies this
      ensures Valid() && unchanged(this`parcel, this`form, this`errors, this`error, this`step, this`history)
      ensures old(parcel).None? || !confirmed ==> calls == []
      ensures old(parcel).Some? && confirmed ==> calls == [DeleteNote(Get(old(parcel).value, "id"), noteId)]
      ensures old(parcel).Some? && confirmed && outcome.Resolved? ==>
                panel == old(panel).(notes := RemoveNote(old(panel).notes, noteId))
      ensures old(parcel).None? || !confirmed || outcome.Rejected? ==> unchanged(this`panel)
    {
      calls := [];
      if parcel.None? || !confirmed {
        return;
      }
      calls := [DeleteNote(Get(parcel.value, "id"), noteId)];
      if outcome.Resolved? {
        panel := panel.(notes := RemoveNote(panel.notes, noteId));
      }
    }
  }

  /** The history call `save` makes after a successful update: one entry by
      the agent when something changed, none otherwise. */
  function SavedHistory(parcelId: Value, changes: map<string, Change>): (calls: seq<ApiCall>)
    ensures |calls| <= 1
    ensures |calls| == 1 <==> |changes| > 0
    ensures |calls| == 1 ==> calls[0] == AddHistory(parcelId, changes, "Agent")
  {
    if |changes| > 0 then [AddHistory(parcelId, changes, "Agent")] else []
  }

  /** The loop of `save` that fills `changes` key by key. */
  method BuildChangeSet(form: Obj, p: Obj) returns (changes: map<string, Change>)
    ensures changes == ChangeSet(form, p)
  {
    changes := map[];
    var remaining := form.Keys;
    while remaining != {}
      invariant remaining <= form.Keys
      invariant forall k :: k in changes <==> k in form.Keys - remaining && Differs(form, p, k)
      invariant forall k :: k in changes ==> changes[k] == Change(Get(p, k), form[k])
      decreases remaining
    {
      var k :| k in remaining;
      if Differs(form, p, k) {
        changes := changes[k := Change(Get(p, k), form[k])];
      }
      remaining := remaining - {k};
    }
  }
}
