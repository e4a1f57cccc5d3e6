/** The admin's question form (src/components/QuestionForm.jsx): the de-duplicated list of
    selectable locations, the form state its handlers update, and the checks run before a
    question is sent. The requests themselves are left out: the server's answer to a
    creation is a parameter. */
module QuestionForm {
  import opened Common

  // ---------------------------------------------------------------------------
  // `new Map(entries)`: an insertion-ordered dictionary

  predicate HasKey(s: seq<(string, RawLocation)>, k: string) {
    exists i :: 0 <= i < |s| && s[i].0 == k
  }

  predicate UniqueKeys(s: seq<(string, RawLocation)>) {
    forall i, j :: 0 <= i < j < |s| ==> s[i].0 != s[j].0
  }

  /** The position of the entry with key `k`. */
  function KeyIndex(s: seq<(string, RawLocation)>, k: string): (i: nat)
    requires HasKey(s, k)
    ensures i < |s| && s[i].0 == k
  {
    if s[0].0 == k then 0
    else
      assert HasKey(s[1..], k) by {
        var j :| 0 <= j < |s| && s[j].0 == k;
        assert s[1..][j - 1] == s[j];
      }
      1 + KeyIndex(s[1..], k)
  }

  /** `map.set(k, v)`: a present key keeps its position and takes the new value; a new key
      goes at the end. */
  function MapSet(m: seq<(string, RawLocation)>, k: string, v: RawLocation): (r: seq<(string, RawLocation)>)
    ensures HasKey(m, k) ==> |r| == |m| && r == m[KeyIndex(m, k) := (k, v)]
    ensures !HasKey(m, k) ==> r == m + [(k, v)]
    ensures UniqueKeys(m) ==> UniqueKeys(r)
    ensures forall key :: HasKey(r, key) <==> HasKey(m, key) || key == k
  {
    if HasKey(m, k) then
      var r := m[KeyIndex(m, k) := (k, v)];
      SameKeys(m, r);
      r
    else
      AppendKey(m, (k, v));
      m + [(k, v)]
  }

  /** Two sequences with the same key at every position have the same keys. */
  lemma SameKeys(m: seq<(string, RawLocation)>, r: seq<(string, RawLocation)>)
    requires |r| == |m| && forall j :: 0 <= j < |m| ==> r[j].0 == m[j].0
    ensures UniqueKeys(m) ==> UniqueKeys(r)
    ensures forall key :: HasKey(r, key) <==> HasKey(m, key)
  {
    forall key | HasKey(r, key) ensures HasKey(m, key) {
      var j :| 0 <= j < |r| && r[j].0 == key;
      assert m[j].0 == key;
    }
    forall key | HasKey(m, key) ensures HasKey(r, key) {
      var j :| 0 <= j < |m| && m[j].0 == key;
      assert r[j].0 == key;
    }
  }

  /** Appending an entry adds its key, once when the key is new. */
  lemma AppendKey(m: seq<(string, RawLocation)>, e: (string, RawLocation))
    ensures UniqueKeys(m) && !HasKey(m, e.0) ==> UniqueKeys(m + [e])
    ensures forall key :: HasKey(m + [e], key) <==> HasKey(m, key) || key == e.0
  {
    var r := m + [e];
    assert r[|m|].0 == e.0;
    forall key | HasKey(r, key) ensures HasKey(m, key) || key == e.0 {
      var j :| 0 <= j < |r| && r[j].0 == key;
      if j < |m| {
        assert m[j] == r[j];
      }
    }
    forall key | HasKey(m, key) ensures HasKey(r, key) {
      var j :| 0 <= j < |m| && m[j].0 == key;
      assert r[j] == m[j];
    }
    if UniqueKeys(m) && !HasKey(m, e.0) {
      forall i, j | 0 <= i < j < |r| ensures r[i].0 != r[j].0 {
        if j == |m| {
          assert r[i] == m[i];
        } else {
          assert r[i] == m[i] && r[j] == m[j];
        }
      }
    }
  }

  /** `new Map(entries)`: each entry is set in turn. The keys are those of the entries,
      each once. */
  function MapOf(entries: seq<(string, RawLocation)>): (r: seq<(string, RawLocation)>)
    ensures UniqueKeys(r)
    ensures forall k :: HasKey(r, k) <==> HasKey(entries, k)
  {
    if entries == [] then []
    else
      var init := entries[..|entries| - 1];
      var last := entries[|entries| - 1];
      assert entries == init + [last];
      AppendKey(init, last);
      MapSet(MapOf(init), last.0, last.1)
  }

  /** The value of the last entry with key `k`. */
  function LastValue(entries: seq<(string, RawLocation)>, k: string): RawLocation
    requires HasKey(entries, k)
  {
    var init := entries[..|entries| - 1];
    if entries[|entries| - 1].0 == k then entries[|entries| - 1].1
    else
      assert HasKey(init, k) by {
        var j :| 0 <= j < |entries| && entries[j].0 == k;
        assert init[j] == entries[j];
      }
      LastValue(init, k)
  }

  lemma {:induction false} LastValueIsAnEntry(entries: seq<(string, RawLocation)>, k: string)
    requires HasKey(entries, k)
    ensures (k, LastValue(entries, k)) in entries
  {
    var init := entries[..|entries| - 1];
    if entries[|entries| - 1].0 != k {
      assert HasKey(init, k) by {
        var j :| 0 <= j < |entries| && entries[j].0 == k;
        assert init[j] == entries[j];
      }
      LastValueIsAnEntry(init, k);
      assert forall x :: x in init ==> x in entries;
    }
  }

  /** The position of the first entry with key `k`. */
  function FirstIndex(entries: seq<(string, RawLocation)>, k: string): (i: nat)
    requires HasKey(entries, k)
    ensures i < |entries| && entries[i].0 == k
    ensures forall j :: 0 <= j < i ==> entries[j].0 != k
  {
    var init := entries[..|entries| - 1];
    if HasKey(init, k) then
      var i := FirstIndex(init, k);
      assert forall j :: 0 <= j <= i ==> init[j] == entries[j];
      i
    else
      assert forall j :: 0 <= j < |init| ==> init[j] == entries[j];
      |entries| - 1
  }

  /** Each key of the map carries the value of its last entry. */
  lemma {:induction false} MapOfKeepsLastValue(entries: seq<(string, RawLocation)>)
    ensures forall i :: 0 <= i < |MapOf(entries)| ==> MapOf(entries)[i].1 == LastValue(entries, MapOf(entries)[i].0)
  {
    if entries != [] {
      var init := entries[..|entries| - 1];
      var last := entries[|entries| - 1];
      var m := MapOf(init);
      var r := MapOf(entries);
      MapOfKeepsLastValue(init);
      forall i | 0 <= i < |r| ensures r[i].1 == LastValue(entries, r[i].0) {
        if r[i].0 != last.0 {
          assert i < |m| && r[i] == m[i];
          assert HasKey(m, m[i].0);
        }
      }
    }
  }

  /** The keys stand in the order of their first entries. */
  lemma {:induction false} MapOfKeepsFirstPosition(entries: seq<(string, RawLocation)>)
    ensures forall i, j :: 0 <= i < j < |MapOf(entries)| ==>
      HasKey(entries, MapOf(entries)[i].0) && HasKey(entries, MapOf(entries)[j].0) &&
      FirstIndex(entries, MapOf(entries)[i].0) < FirstIndex(entries, MapOf(entries)[j].0)
  {
    if entries != [] {
      var init := entries[..|entries| - 1];
      var last := entries[|entries| - 1];
      var m := MapOf(init);
      var r := MapOf(entries);
      MapOfKeepsFirstPosition(init);
      assert r == MapSet(m, last.0, last.1);
      forall i, j | 0 <= i < j < |r|
        ensures HasKey(entries, r[i].0) && HasKey(entries, r[j].0)
        ensures FirstIndex(entries, r[i].0) < FirstIndex(entries, r[j].0)
      {
        assert i < |m| && r[i].0 == m[i].0;
        assert HasKey(m, m[i].0);
        FirstIndexOfInit(entries, r[i].0);
        if j < |m| {
          assert r[j].0 == m[j].0;
          assert HasKey(m, m[j].0);
          FirstIndexOfInit(entries, r[j].0);
        } else {
          assert r[j].0 == last.0 && !HasKey(init, last.0);
          assert entries[|entries| - 1].0 == r[j].0;
        }
      }
    } else {
      assert MapOf(entries) == [];
    }
  }

  /** A key of all but the last entry keeps its first position. */
  lemma FirstIndexOfInit(entries: seq<(string, RawLocation)>, k: string)
    requires entries != [] && HasKey(entries[..|entries| - 1], k)
    ensures HasKey(entries, k) && FirstIndex(entries, k) == FirstIndex(entries[..|entries| - 1], k)
  {
    var j :| 0 <= j < |entries| - 1 && entries[..|entries| - 1][j].0 == k;
    assert entries[j].0 == k;
  }

  // ---------------------------------------------------------------------------
  // `uniqueLocations`

  /** A property of a location object as JavaScript sees it: absent, a string, or another
      value (a number, an object) that is truthy or not. */
  datatype JsField = Missing | Str(s: string) | Other(truthy: bool)

  predicate FieldTruthy(f: JsField) {
    match f
    case Missing => false
    case Str(s) => s != ""
    case Other(t) => t
  }

  /** An entry of `allLocations`: its `_id`, its `id` and its `location`. */
  datatype RawLocation = RawLocation(objectId: JsField, id: JsField, location: JsField)

  /** `loc._id || loc.id` */
  function ResolvedId(loc: RawLocation): JsField {
    if FieldTruthy(loc.objectId) then loc.objectId else loc.id
  }

  /** The filter: a non-empty string id and a non-empty string location. */
  predicate Usable(loc: Option<RawLocation>) {
    && loc.Some?
    && ResolvedId(loc.value).Str? && ResolvedId(loc.value).s != ""
    && loc.value.location.Str? && loc.value.location.s != ""
  }

  /** Some usable entry of `all` resolves to the id `k`. */
  predicate IdIsUsable(all: seq<Option<RawLocation>>, k: string) {
    exists i :: 0 <= i < |all| && Usable(all[i]) && ResolvedId(all[i].value) == Str(k)
  }

  /** Each entry is keyed by a non-empty id and has `_id` set to it and a string location. */
  predicate WellKeyed(e: seq<(string, RawLocation)>) {
    forall i :: 0 <= i < |e| ==> e[i].0 != "" && e[i].1.objectId == Str(e[i].0) && e[i].1.location.Str?
  }

  /** The entry of a usable location: its resolved id, and the location with `_id` set
      to that id. */
  function Keyed(loc: RawLocation): (e: (string, RawLocation))
    requires Usable(Some(loc))
    ensures e.0 != "" && Str(e.0) == ResolvedId(loc)
    ensures e.1 == loc.(objectId := Str(e.0))
  {
    var k := ResolvedId(loc).s;
    (k, loc.(objectId := Str(k)))
  }

  /** The filtered entries, each keyed by its resolved id and with `_id` set to it. */
  function Entries(all: seq<Option<RawLocation>>): (r: seq<(string, RawLocation)>)
    ensures |r| <= |all| && WellKeyed(r)
  {
    if all == [] then []
    else
      var rest := Entries(all[1..]);
      if Usable(all[0]) then
        var r := [Keyed(all[0].value)] + rest;
        assert forall j :: 0 <= j < |rest| ==> r[j + 1] == rest[j];
        r
      else rest
  }

  /** The entries are the usable locations in order: one location gives its keyed entry
      or nothing, and the entries of a concatenation are the concatenated entries. */
  lemma {:induction false} EntriesInOrder(a: seq<Option<RawLocation>>, b: seq<Option<RawLocation>>, x: Option<RawLocation>)
    ensures Entries(a + b) == Entries(a) + Entries(b)
    ensures Entries([x]) == if Usable(x) then [Keyed(x.value)] else []
  {
    if a == [] {
      assert a + b == b;
    } else {
      assert (a + b)[1..] == a[1..] + b;
      EntriesInOrder(a[1..], b, x);
    }
    assert [x][1..] == [];
  }

  /** The entries' keys are exactly the ids of the usable locations. */
  lemma {:induction false} EntriesKeys(all: seq<Option<RawLocation>>, k: string)
    ensures HasKey(Entries(all), k) <==> IdIsUsable(all, k)
  {
    if all != [] {
      var rest := Entries(all[1..]);
      var r := Entries(all);
      EntriesKeys(all[1..], k);
      assert IdIsUsable(all[1..], k) ==> IdIsUsable(all, k) by {
        if IdIsUsable(all[1..], k) {
          var i :| 0 <= i < |all[1..]| && Usable(all[1..][i]) && ResolvedId(all[1..][i].value) == Str(k);
          assert all[i + 1] == all[1..][i];
        }
      }
      assert IdIsUsable(all, k) ==> IdIsUsable(all[1..], k) || (Usable(all[0]) && ResolvedId(all[0].value) == Str(k)) by {
        if IdIsUsable(all, k) {
          var i :| 0 <= i < |all| && Usable(all[i]) && ResolvedId(all[i].value) == Str(k);
          if i > 0 {
            assert all[1..][i - 1] == all[i];
          }
        }
      }
      if Usable(all[0]) {
        assert r[0].0 == ResolvedId(all[0].value).s;
        assert forall j :: 0 <= j < |rest| ==> r[j + 1] == rest[j];
        assert HasKey(rest, k) ==> HasKey(r, k) by {
          if HasKey(rest, k) {
            var j :| 0 <= j < |rest| && rest[j].0 == k;
            assert r[j + 1].0 == k;
          }
        }
        assert HasKey(r, k) ==> HasKey(rest, k) || r[0].0 == k by {
          if HasKey(r, k) {
            var j :| 0 <= j < |r| && r[j].0 == k;
            if j > 0 {
              assert rest[j - 1] == r[j];
            }
          }
        }
      }
    }
  }

  /** `uniqueLocations`: the usable locations, one per resolved id, at the position of the
      id's first occurrence and with the fields of its last (see `MapOfKeepsFirstPosition`
      and `MapOfKeepsLastValue`). */
  function UniqueLocations(allLocations: Option<seq<Option<RawLocation>>>): (r: seq<(string, RawLocation)>)
    ensures UniqueKeys(r) && WellKeyed(r)
    ensures allLocations.None? ==> r == []
    ensures allLocations.Some? ==> forall k :: HasKey(r, k) <==> IdIsUsable(allLocations.value, k)
    // Each id keeps the last of its usable locations ...
    ensures allLocations.Some? ==> forall i :: 0 <= i < |r| ==>
      HasKey(Entries(allLocations.value), r[i].0) && r[i].1 == LastValue(Entries(allLocations.value), r[i].0)
    // ... and the ids stand in the order of their first usable locations.
    ensures allLocations.Some? ==> forall i, j :: 0 <= i < j < |r| ==>
      && HasKey(Entries(allLocations.value), r[i].0) && HasKey(Entries(allLocations.value), r[j].0)
      && FirstIndex(Entries(allLocations.value), r[i].0) < FirstIndex(Entries(allLocations.value), r[j].0)
  {
    var all := if allLocations.Some? then allLocations.value else [];
    var e := Entries(all);
    var r := MapOf(e);
    forall k ensures HasKey(r, k) <==> IdIsUsable(all, k) {
      EntriesKeys(all, k);
    }
    MapOfKeepsLastValue(e);
    MapOfKeepsFirstPosition(e);
    forall i | 0 <= i < |r| ensures HasKey(e, r[i].0) {
      assert HasKey(r, r[i].0);
    }
    assert WellKeyed(r) by {
      forall i | 0 <= i < |r| ensures r[i].0 != "" && r[i].1.objectId == Str(r[i].0) && r[i].1.location.Str? {
        assert HasKey(r, r[i].0);
        LastValueIsAnEntry(e, r[i].0);
      }
    }
    r
  }

  // ---------------------------------------------------------------------------
  // The form

  /** `newQuestion` */
  datatype Draft = Draft(question: string, options: seq<string>, correctAnswer: int, location: string, month: string)

  const EmptyDraft := Draft("", ["", "", "", ""], 0, "", "")

  /** The body of the creation request: the draft and the current year. */
  datatype CreateBody = CreateBody(draft: Draft, year: int)

  /** The checks `handleCreateQuestion` makes before sending, in order; the first that
      fails names the error. `allLocations` is the component's prop, de-duplicated as
      `uniqueLocations`. */
  function CreateCheck(draft: Draft, allLocations: Option<seq<Option<RawLocation>>>): (r: Option<string>)
    ensures draft.month == "" ==> r == Some("Please select a month")
    ensures draft.month != "" && draft.location == "" ==> r == Some("Please select a location")
    ensures draft.month != "" && draft.location != "" && UniqueLocations(allLocations) == [] ==>
      r == Some("No valid locations available. Please create a location first.")
    ensures r.None? <==> draft.month != "" && draft.location != "" && UniqueLocations(allLocations) != []
  {
    if draft.month == "" then Some("Please select a month")
    else if draft.location == "" then Some("Please select a location")
    else if |UniqueLocations(allLocations)| == 0 then Some("No valid locations available. Please create a location first.")
    else None
  }

  /** The effect: questions are fetched only once both filters are chosen. */
  predicate ShouldFetch(filterLocation: string, filterMonth: string) {
    filterLocation != "" && filterMonth != ""
  }

  /** What a creation attempt did. */
  datatype CreateResult =
    | Rejected(message: string)
    | Sent(body: CreateBody, accepted: bool, refetch: bool)

  /** The form's state. */
  class QuestionFormState {
    var draft: Draft
    var showAnswers: map<string, bool>
    var filterLocation: string
    var filterMonth: string
    var filterYear: int

    ghost predicate Valid()
      reads this
    {
      |draft.options| == 4
    }

    constructor (currentYear: int)
      ensures Valid() && draft == EmptyDraft && showAnswers == map[]
      ensures filterLocation == "" && filterMonth == "" && filterYear == currentYear
      ensures !ShouldFetch(filterLocation, filterMonth)
    {
      draft := EmptyDraft;
      showAnswers := map[];
      filterLocation := "";
      filterMonth := "";
      filterYear := currentYear;
    }

    /** `toggleAnswer(id)`: that id's flag flips (an unset flag becomes shown); no other
        flag changes. */
    method ToggleAnswer(questionId: string)
      modifies this
      ensures questionId in showAnswers
      ensures showAnswers[questionId] == !(questionId in old(showAnswers) && old(showAnswers)[questionId])
      ensures showAnswers.Keys == old(showAnswers).Keys + {questionId}
      ensures forall k :: k in old(showAnswers) && k != questionId ==> showAnswers[k] == old(showAnswers)[k]
      ensures draft == old(draft) && filterLocation == old(filterLocation) && filterMonth == old(filterMonth)
      ensures filterYear == old(filterYear)
    {
      var shown := questionId in showAnswers && showAnswers[questionId];
      showAnswers := showAnswers[questionId := !shown];
    }

    /** Typing into option `index`: that option only is replaced; there are still four. */
    method EditOption(index: nat, value: string)
      requires Valid() && index < |draft.options|
      modifies this
      ensures Valid()
      ensures |draft.options| == 4 && draft.options[index] == value
      ensures forall j :: 0 <= j < 4 && j != index ==> draft.options[j] == old(draft.options)[j]
      ensures draft == old(draft).(options := draft.options)
      ensures showAnswers == old(showAnswers) && filterLocation == old(filterLocation)
      ensures filterMonth == old(filterMonth) && filterYear == old(filterYear)
    {
      var options := draft.options;
      options := options[index := value];
      draft := draft.(options := options);
    }

    /** `handleCreateQuestion`: a failed check or a refused request leaves the form as it
        was; an accepted one resets the draft, and the list is fetched again when the
        filters show the new question's location and month. `reply` is the server's
        answer: None when it accepted, else its error message. */
    method CreateQuestion(allLocations: Option<seq<Option<RawLocation>>>, currentYear: int, reply: Option<string>) returns (result: CreateResult)
      requires Valid()
      modifies this
      ensures Valid()
      ensures CreateCheck(old(draft), allLocations).Some? ==>
        result == Rejected(CreateCheck(old(draft), allLocations).value) && draft == old(draft)
      ensures CreateCheck(old(draft), allLocations).None? ==>
        result.Sent? && result.body == CreateBody(old(draft), currentYear)
        && result.accepted == reply.None?
      ensures result.Sent? && result.accepted ==>
        && draft == EmptyDraft
        && result.refetch == (filterLocation == old(draft).location && filterMonth == old(draft).month)
      ensures result.Sent? && !result.accepted ==> draft == old(draft) && !result.refetch
      ensures showAnswers == old(showAnswers) && filterLocation == old(filterLocation)
      ensures filterMonth == old(filterMonth) && filterYear == old(filterYear)
    {
      var check := CreateCheck(draft, allLocations);
      if check.Some? {
        return Rejected(check.value);
      }
      var body := CreateBody(draft, currentYear);
      if reply.Some? {
        return Sent(body, false, false);
      }
      var refetch := filterLocation == draft.location && filterMonth == draft.month;
      draft := EmptyDraft;
      result := Sent(body, true, refetch);
    }
  }
}
