/** The question service (backend/controllers/questionController.js): create, list,
    fetch, update and delete questions. The Location collection enters only through
    the set of its ids. */
module QuestionController {
  import opened Common
  import opened Sequences
  import opened QuestionModel

  /** The collection's invariant: every question valid, ids distinct. */
  predicate ValidTable(t: seq<Question>) {
    && (forall i :: 0 <= i < |t| ==> ValidQuestion(t[i]))
    && (forall i, j :: 0 <= i < j < |t| ==> t[i].id != t[j].id)
  }

  /** `findById`: the position of the question with that id. */
  function FindQuestion(t: seq<Question>, id: Id): (r: Option<nat>)
    ensures r.Some? ==> r.value < |t| && t[r.value].id == id
    ensures r.None? <==> forall i :: 0 <= i < |t| ==> t[i].id != id
  {
    if t == [] then None
    else if t[0].id == id then Some(0)
    else
      match FindQuestion(t[1..], id)
      case None => None
      case Some(i) => Some(i + 1)
  }

  const QuestionNotFound := "Question not found"
  const LocationNotFound := "Location not found"

  /** `getQuestionById` */
  function GetQuestionById(t: seq<Question>, id: Id): (r: Response<Question>)
    ensures r.Ok? <==> exists i :: 0 <= i < |t| && t[i].id == id
    ensures r.Ok? ==> r.status == 200 && r.body in t && r.body.id == id
    ensures r.Err? ==> r == Err(404, QuestionNotFound)
  {
    match FindQuestion(t, id)
    case None => Err(404, QuestionNotFound)
    case Some(i) => Ok(200, t[i])
  }

  /** Whether a question satisfies the query `getQuestions` builds: each filter applies
      only when supplied (truthy). */
  predicate MatchesFilters(q: Question, location: Option<Id>, month: Option<string>, year: Option<string>) {
    && (location.Some? ==> q.location == location.value)
    && (Truthy(month) ==> q.month == month.value)
    && (Truthy(year) ==> Some(q.year) == ParseInt(year.value))
  }

  /** `.sort({ createdAt: -1 })` */
  predicate NewestFirst(a: Question, b: Question) {
    a.createdAt >= b.createdAt
  }

  /** `getQuestions`: exactly the questions matching every supplied filter, newest first;
      a year that does not parse is a cast error. */
  function GetQuestions(t: seq<Question>, location: Option<Id>, month: Option<string>, year: Option<string>): (r: Response<seq<Question>>)
    ensures r.Err? <==> Truthy(year) && ParseInt(year.value).None?
    ensures r.Err? ==> r.status == 400
    ensures r.Ok? ==> r.status == 200 && SortedBy(r.body, NewestFirst)
    ensures r.Ok? ==>
      forall x :: multiset(r.body)[x] ==
        (if MatchesFilters(x, location, month, year) then multiset(t)[x] else 0)
  {
    if Truthy(year) && ParseInt(year.value).None? then
      Err(400, "Cast to Number failed for value \"NaN\" at path \"year\"")
    else
      var matching := Filter(t, (x: Question) => MatchesFilters(x, location, month, year));
      assert TotalPreorder(NewestFirst);
      SortBySorted(matching, NewestFirst);
      Ok(200, SortBy(matching, NewestFirst))
  }

  /** With no filter every question is listed. */
  lemma UnfilteredListsAll(t: seq<Question>)
    ensures GetQuestions(t, None, None, None).Ok?
    ensures multiset(GetQuestions(t, None, None, None).body) == multiset(t)
  {
    var r := GetQuestions(t, None, None, None).body;
    forall x ensures multiset(r)[x] == multiset(t)[x] {
      assert MatchesFilters(x, None, None, None);
    }
  }

  /** Removing the only question with an id leaves every other question and no
      question with that id. */
  lemma RemoveAtRemovesId(t: seq<Question>, i: nat)
    requires i < |t|
    requires forall a, b :: 0 <= a < b < |t| ==> t[a].id != t[b].id
    ensures forall q :: q in RemoveAt(t, i) ==> q.id != t[i].id
  {
    var r := RemoveAt(t, i);
    forall q | q in r ensures q.id != t[i].id {
      var k :| 0 <= k < |r| && r[k] == q;
      if k >= i {
        assert r[k] == t[k + 1];
      }
    }
  }

  /** The collection invariant survives an insertion of a valid question with a fresh
      id, a valid replacement with the same id and a removal. */
  lemma AppendKeepsValid(t: seq<Question>, q: Question, nextId: Id)
    requires ValidTable(t) && forall i :: 0 <= i < |t| ==> t[i].id < nextId
    requires ValidQuestion(q) && q.id == nextId
    ensures ValidTable(t + [q]) && forall i :: 0 <= i < |t + [q]| ==> (t + [q])[i].id < nextId + 1
  {
  }

  lemma ReplaceKeepsValid(t: seq<Question>, i: nat, q: Question)
    requires ValidTable(t) && i < |t|
    requires ValidQuestion(q) && q.id == t[i].id
    ensures ValidTable(t[i := q])
  {
  }

  lemma RemoveKeepsValid(t: seq<Question>, i: nat)
    requires ValidTable(t) && i < |t|
    ensures ValidTable(RemoveAt(t, i))
  {
    var r := RemoveAt(t, i);
    forall a, b | 0 <= a < b < |r| ensures r[a].id != r[b].id {
      var a' := if a < i then a else a + 1;
      var b' := if b < i then b else b + 1;
      assert r[a] == t[a'] && r[b] == t[b'];
    }
  }

  /** The Question collection with the operations that change it. */
  class QuestionStore {
    var questions: seq<Question>
    var nextId: Id

    ghost predicate Valid()
      reads this
    {
      && ValidTable(questions)
      && forall i :: 0 <= i < |questions| ==> questions[i].id < nextId
    }

    constructor ()
      ensures Valid() && questions == [] && nextId == 0
    {
      questions := [];
      nextId := 0;
    }

    method IndexOf(id: Id) returns (index: Option<nat>)
      ensures index == FindQuestion(questions, id)
    {
      var i := 0;
      while i < |questions|
        invariant 0 <= i <= |questions|
        invariant forall j :: 0 <= j < i ==> questions[j].id != id
      {
        if questions[i].id == id {
          assert FindQuestion(questions, id).Some? && FindQuestion(questions, id).value == i by {
            FindQuestionFirst(questions, id, i);
          }
          return Some(i);
        }
        i := i + 1;
      }
      return None;
    }

    /** `createQuestion`: the location must exist, then the new question must pass the
        schema; it is stored with the location's id. */
    method CreateQuestion(body: QuestionFields, locations: set<Id>, defaultYear: int, now: int)
      returns (response: Response<Question>)
      requires Valid()
      modifies this
      ensures Valid()
      ensures body.location.None? || body.location.value !in locations ==>
        response == Err(404, LocationNotFound)
      ensures body.location.Some? && body.location.value in locations && !FieldsAccepted(body) ==>
        response.Err? && response.status == 400
      ensures body.location.Some? && body.location.value in locations && FieldsAccepted(body) ==>
        response.Ok?
      ensures response.Err? ==> questions == old(questions) && nextId == old(nextId)
      ensures response.Ok? ==>
        && response.status == 201
        && Some(response.body) == NewQuestion(old(nextId), body, defaultYear, now)
        && response.body.location in locations
        && questions == old(questions) + [response.body]
        && nextId == old(nextId) + 1
    {
      if body.location.None? || body.location.value !in locations {
        return Err(404, LocationNotFound);
      }
      var created := NewQuestion(nextId, body, defaultYear, now);
      if created.None? {
        return Err(400, "Question validation failed");
      }
      AppendKeepsValid(questions, created.value, nextId);
      questions := questions + [created.value];
      nextId := nextId + 1;
      response := Ok(201, created.value);
    }

    /** `updateQuestion` */
    method UpdateQuestion(id: Id, body: QuestionFields, locations: set<Id>) returns (response: Response<Question>)
      requires Valid()
      modifies this
      ensures Valid() && nextId == old(nextId)
      ensures questions == Update(old(questions), id, body, locations).table
      ensures response == Update(old(questions), id, body, locations).response
    {
      if body.location.None? || body.location.value !in locations {
        return Err(404, LocationNotFound);
      }
      if !UpdateAccepted(body) {
        return Err(400, ValidationFailed);
      }
      var index := IndexOf(id);
      if index.None? {
        return Err(404, QuestionNotFound);
      }
      var updated := Merge(questions[index.value], body);
      questions := questions[index.value := updated];
      response := Ok(200, updated);
    }

    /** `deleteQuestion` */
    method DeleteQuestion(id: Id) returns (response: Response<string>)
      requires Valid()
      modifies this
      ensures Valid() && nextId == old(nextId)
      ensures questions == Delete(old(questions), id).table
      ensures response == Delete(old(questions), id).response
    {
      var index := IndexOf(id);
      if index.None? {
        return Err(404, QuestionNotFound);
      }
      questions := RemoveAt(questions, index.value);
      response := Ok(200, "Question deleted successfully");
    }
  }

  const ValidationFailed := "Validation failed"

  datatype Outcome<T> = Outcome(table: seq<Question>, response: Response<T>)

  /** `updateQuestion`: the location must exist; the update validators run on the
      supplied fields; then the question must exist, and only it changes. */
  function Update(t: seq<Question>, id: Id, body: QuestionFields, locations: set<Id>): (o: Outcome<Question>)
    ensures body.location.None? || body.location.value !in locations ==>
      o.response == Err(404, LocationNotFound)
    ensures body.location.Some? && body.location.value in locations && !UpdateAccepted(body) ==>
      o.response == Err(400, ValidationFailed)
    ensures body.location.Some? && body.location.value in locations && UpdateAccepted(body) ==>
      (FindQuestion(t, id).None? <==> o.response == Err(404, QuestionNotFound))
    ensures o.response.Err? ==> o.table == t
    // A known location, an accepted update and a stored question: the update succeeds.
    ensures o.response.Ok? <==>
      body.location.Some? && body.location.value in locations && UpdateAccepted(body) && FindQuestion(t, id).Some?
    ensures o.response.Ok? ==>
      && o.response.status == 200
      && FindQuestion(t, id).Some?
      && var i := FindQuestion(t, id).value;
      && o.response.body == Merge(t[i], body)
      && o.response.body.location in locations
      && o.table == t[i := o.response.body]
    ensures ValidTable(t) ==> ValidTable(o.table)
  {
    if body.location.None? || body.location.value !in locations then Outcome(t, Err(404, LocationNotFound))
    else if !UpdateAccepted(body) then Outcome(t, Err(400, ValidationFailed))
    else
      match FindQuestion(t, id)
      case None => Outcome(t, Err(404, QuestionNotFound))
      case Some(i) =>
        var updated := Merge(t[i], body);
        assert ValidTable(t) ==> ValidTable(t[i := updated]) by {
          if ValidTable(t) {
            ReplaceKeepsValid(t, i, updated);
          }
        }
        Outcome(t[i := updated], Ok(200, updated))
  }

  /** `deleteQuestion`: an unknown id is 404; otherwise exactly the question with that id
      is removed and every other one stays. */
  function Delete(t: seq<Question>, id: Id): (o: Outcome<string>)
    ensures o.response.Err? <==> FindQuestion(t, id).None?
    ensures o.response.Err? ==> o.response == Err(404, QuestionNotFound) && o.table == t
    ensures o.response.Ok? ==>
      && o.response == Ok(200, "Question deleted successfully")
      && multiset(o.table) + multiset{t[FindQuestion(t, id).value]} == multiset(t)
    ensures forall q :: q in o.table ==> q in t
    ensures ValidTable(t) ==> ValidTable(o.table)
    ensures ValidTable(t) ==> (forall q :: q in o.table ==> q.id != id)
    ensures ValidTable(t) ==> (forall q :: q in t && q.id != id ==> q in o.table)
  {
    match FindQuestion(t, id)
    case None => Outcome(t, Err(404, QuestionNotFound))
    case Some(i) =>
      assert ValidTable(t) ==> ValidTable(RemoveAt(t, i)) && (forall q :: q in RemoveAt(t, i) ==> q.id != id) by {
        if ValidTable(t) {
          RemoveKeepsValid(t, i);
          RemoveAtRemovesId(t, i);
        }
      }
      RemoveAtMembers(t, i);
      Outcome(RemoveAt(t, i), Ok(200, "Question deleted successfully"))
  }

  /** With distinct ids, the question found is the one at any position holding the id. */
  lemma FindQuestionFirst(t: seq<Question>, id: Id, i: nat)
    requires i < |t| && t[i].id == id
    requires forall j :: 0 <= j < i ==> t[j].id != id
    ensures FindQuestion(t, id) == Some(i)
  {
    if i > 0 {
      FindQuestionFirst(t[1..], id, i - 1);
    }
  }
}
