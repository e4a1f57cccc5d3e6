/** The location service (backend/controllers/locationController.js over the collection
    of backend/models/Location.js): creation with a duplicate check and the listing. */
module LocationController {
  import opened Common

  /** A stored location; the schema trims the name and requires it. */
  datatype Location = Location(id: Id, location: string, createdAt: int)

  /** The collection's invariant: names trimmed, non-empty and unique. */
  predicate ValidTable(t: seq<Location>) {
    && (forall i :: 0 <= i < |t| ==> Trimmed(t[i].location))
    && (forall i, j :: 0 <= i < j < |t| ==> t[i].location != t[j].location)
  }

  /** `Location.findOne({ location })`; the query applies the schema's `trim` to the name. */
  function FindByName(t: seq<Location>, name: string): (r: Option<nat>)
    ensures r.Some? ==> r.value < |t| && t[r.value].location == Trim(name)
    ensures r.None? <==> forall i :: 0 <= i < |t| ==> t[i].location != Trim(name)
  {
    if t == [] then None
    else if t[0].location == Trim(name) then Some(0)
    else
      match FindByName(t[1..], name)
      case None => None
      case Some(i) => Some(i + 1)
  }

  /** What the creation answers: the new location's id and stored name. */
  datatype LocationView = LocationView(id: Id, location: string)

  datatype Outcome = Outcome(table: seq<Location>, response: Response<LocationView>)

  const ServerError := "Server error while creating location"

  /** `createLocation`: a missing or empty name is 400, a name already stored (after
      trimming) is 400; a name that trims to nothing fails the schema (500); otherwise
      exactly one location is added. */
  function Create(t: seq<Location>, newId: Id, name: Option<string>, now: int): (o: Outcome)
    ensures !Truthy(name) ==> o.response == Err(400, "Location is required")
    ensures Truthy(name) && FindByName(t, name.value).Some? ==> o.response == Err(400, "Location already exists")
    ensures Truthy(name) && FindByName(t, name.value).None? && Trim(name.value) == "" ==>
      o.response == Err(500, ServerError)
    ensures o.response.Err? ==> o.table == t
    // A new name that does not trim to nothing is created.
    ensures o.response.Ok? <==> Truthy(name) && FindByName(t, name.value).None? && Trim(name.value) != ""
    ensures o.response.Ok? ==>
      && o.response == Ok(201, LocationView(newId, Trim(name.value)))
      && o.table == t + [Location(newId, Trim(name.value), now)]
  {
    if !Truthy(name) then Outcome(t, Err(400, "Location is required"))
    else if FindByName(t, name.value).Some? then Outcome(t, Err(400, "Location already exists"))
    else
      var stored := Trim(name.value);
      if stored == "" then Outcome(t, Err(500, ServerError))
      else Outcome(t + [Location(newId, stored, now)], Ok(201, LocationView(newId, stored)))
  }

  /** Creation keeps names trimmed and unique. */
  lemma CreateKeepsValid(t: seq<Location>, newId: Id, name: Option<string>, now: int)
    requires ValidTable(t)
    ensures ValidTable(Create(t, newId, name, now).table)
  {
    if Truthy(name) && FindByName(t, name.value).None? && Trim(name.value) != "" {
      AppendKeepsValid(t, Location(newId, Trim(name.value), now));
    }
  }

  lemma AppendKeepsValid(t: seq<Location>, l: Location)
    requires ValidTable(t) && Trimmed(l.location)
    requires forall i :: 0 <= i < |t| ==> t[i].location != l.location
    ensures ValidTable(t + [l])
  {
    var u := t + [l];
    assert forall i :: 0 <= i < |t| ==> u[i] == t[i];
    assert u[|t|] == l;
  }

  /** Names that differ only in surrounding whitespace are the same location. */
  lemma {:induction false} PaddedNameIsDuplicate(t: seq<Location>, newId: Id, name: string, now: int)
    requires ValidTable(t)
    requires exists i :: 0 <= i < |t| && t[i].location == name
    ensures Create(t, newId, Some(" " + name + " "), now).response == Err(400, "Location already exists")
  {
    var i :| 0 <= i < |t| && t[i].location == name;
    TrimTrimmed(name);
    PaddedTrim(name);
    assert t[i].location == Trim(" " + name + " ");
  }

  lemma PaddedTrim(name: string)
    requires Trimmed(name)
    ensures Trim(" " + name + " ") == name
  {
    var s := " " + name + " ";
    assert s[1..] == name + " ";
    assert TrimStart(s) == TrimStart(name + " ") == name + " ";
    assert (name + " ")[..|name|] == name;
    assert TrimEnd(name + " ") == name;
  }

  /** `getAllLocations`: one `{id, location}` per stored location, in store order. */
  function GetAllLocations(t: seq<Location>): (r: seq<LocationView>)
    ensures |r| == |t|
    ensures forall i :: 0 <= i < |t| ==> r[i].id == t[i].id && r[i].location == t[i].location
  {
    if t == [] then [] else [LocationView(t[0].id, t[0].location)] + GetAllLocations(t[1..])
  }

  /** The Location collection with the operation that changes it. */
  class LocationStore {
    var locations: seq<Location>
    var nextId: Id

    ghost predicate Valid()
      reads this
    {
      ValidTable(locations)
    }

    constructor ()
      ensures Valid() && locations == [] && nextId == 0
    {
      locations := [];
      nextId := 0;
    }

    /** `Location.findOne({ location })` */
    method FindOne(name: string) returns (index: Option<nat>)
      ensures index.Some? <==> FindByName(locations, name).Some?
      ensures index.Some? ==> index.value < |locations| && locations[index.value].location == Trim(name)
    {
      var key := Trim(name);
      var i := 0;
      while i < |locations|
        invariant 0 <= i <= |locations|
        invariant forall j :: 0 <= j < i ==> locations[j].location != key
      {
        if locations[i].location == key {
          return Some(i);
        }
        i := i + 1;
      }
      return None;
    }

    /** `createLocation` */
    method CreateLocation(name: Option<string>, now: int) returns (response: Response<LocationView>)
      requires Valid()
      modifies this
      ensures Valid()
      ensures locations == Create(old(locations), old(nextId), name, now).table
      ensures response == Create(old(locations), old(nextId), name, now).response
      ensures nextId == if response.Ok? then old(nextId) + 1 else old(nextId)
    {
      if !Truthy(name) {
        return Err(400, "Location is required");
      }
      var existing := FindOne(name.value);
      if existing.Some? {
        return Err(400, "Location already exists");
      }
      var stored := Trim(name.value);
      if stored == "" {
        return Err(500, ServerError);
      }
      CreateKeepsValid(locations, nextId, name, now);
      locations := locations + [Location(nextId, stored, now)];
      response := Ok(201, LocationView(nextId, stored));
      nextId := nextId + 1;
    }
  }
}
