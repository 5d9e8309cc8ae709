/** The version-1 notified-people resource: create, read, list, replace and remove entries
    of the current LPA's list of people to notify, each keyed by an integer id. Changes are
    made to the loaded LPA object in place and saved with the conditional write. */
module NotifiedPeople {
  import opened Common
  import opened RestResource

  /** A `NotifiedPerson` built from client data: the id may be missing. */
  datatype PersonData = PersonData(id: Option<int>, details: Doc)

  /** What the resource answers: an entity, a collection (all items on one page), the
      empty collection, `true` for a removal, a 404 or validation problem, the
      malformed-LPA RuntimeException, or one of the base resource's exceptions. */
  datatype Response =
    | PersonEntity(person: Person)
    | Collection(items: seq<Person>, perPage: nat)
    | EmptyCollection
    | Removed
    | NotFound
    | ValidationProblem
    | MalformedLpa
    | Failed(failure: Failure)

  /** The largest id on the list, with 0 as a floor (the id list is seeded with 0). */
  function MaxId(people: seq<Person>): (r: int)
    ensures r >= 0
    ensures forall i :: 0 <= i < |people| ==> people[i].id <= r
    ensures r == 0 || exists i :: 0 <= i < |people| && people[i].id == r
  {
    if people == [] then 0
    else
      var m := MaxId(people[..|people| - 1]);
      var last := people[|people| - 1].id;
      assert forall i :: 0 <= i < |people| - 1 ==> people[..|people| - 1][i] == people[i];
      if last > m then last else m
  }

  /** The id `create` assigns is used by nobody on the list, and the first person gets 1. */
  lemma NewIdIsFresh(people: seq<Person>)
    ensures forall i :: 0 <= i < |people| ==> people[i].id != MaxId(people) + 1
    ensures people == [] ==> MaxId(people) + 1 == 1
  {
  }

  /** The id for a person created without one: max(0, ids...) + 1, found by one pass over
      the list. */
  method NextId(people: seq<Person>) returns (id: int)
    ensures id == MaxId(people) + 1
  {
    var m := 0;
    var i := 0;
    while i < |people|
      invariant 0 <= i <= |people|
      invariant m == MaxId(people[..i])
    {
      assert people[..i + 1][..i] == people[..i];
      if people[i].id > m {
        m := people[i].id;
      }
      i := i + 1;
    }
    assert people[..i] == people;
    id := m + 1;
  }

  /** The position of the first person with id `id`, by one pass over the list. */
  method FirstMatch(people: seq<Person>, id: int) returns (k: Option<nat>)
    ensures k.Some? ==> k.value < |people| && people[k.value].id == id
    ensures k.Some? ==> forall j :: 0 <= j < k.value ==> people[j].id != id
    ensures k.None? ==> forall j :: 0 <= j < |people| ==> people[j].id != id
  {
    var i := 0;
    while i < |people|
      invariant 0 <= i <= |people|
      invariant forall j :: 0 <= j < i ==> people[j].id != id
    {
      if people[i].id == id {
        return Some(i);
      }
      i := i + 1;
    }
    return None;
  }

  /** The list without its `k`-th entry. */
  function RemoveAt(people: seq<Person>, k: nat): (r: seq<Person>)
    requires k < |people|
    ensures |r| == |people| - 1
    ensures forall j :: 0 <= j < k ==> r[j] == people[j]
    ensures forall j :: k <= j < |r| ==> r[j] == people[j + 1]
  {
    people[..k] + people[k + 1..]
  }

  /** Removing the first entry with an id takes out exactly one entry with that id and
      keeps the others in order. */
  lemma RemoveFirstMatch(people: seq<Person>, k: nat, id: int)
    requires k < |people| && people[k].id == id
    requires forall j :: 0 <= j < k ==> people[j].id != id
    ensures multiset(RemoveAt(people, k)) + multiset{people[k]} == multiset(people)
    ensures forall j :: 0 <= j < k ==> RemoveAt(people, k)[j].id != id
  {
    assert people == people[..k] + [people[k]] + people[k + 1..];
  }

  class NotifiedPeopleResource {
    const base: Resource

    constructor (base: Resource)
      ensures this.base == base
    {
      this.base := base;
    }

    /** `create($data)`: the person gets the client's id or max+1, goes at the end of the
        list, and the LPA is saved. */
    method Create(data: PersonData, now: int) returns (r: Response)
      modifies base.lpa, base.lpas
      ensures base.CheckAccess(None).Some? ==>
        r == Failed(base.CheckAccess(None).value) && base.lpas.docs == old(base.lpas.docs)
      ensures base.CheckAccess(None).None? && base.lpa == null ==>
        r == Failed(LpaNotSet) && base.lpas.docs == old(base.lpas.docs)
      ensures base.CheckAccess(None).None? && base.lpa != null ==>
        var person := Person(if data.id.Some? then data.id.value
                             else MaxId(old(base.lpa.document.peopleToNotify)) + 1, data.details);
        && base.lpa.document == old(base.lpa.document).(peopleToNotify := old(base.lpa.document.peopleToNotify) + [person])
        && base.lpa.updatedAt == now
        && base.lpas.docs == CasStore(old(base.lpas.docs), base.lpa.id, old(base.lpa.updatedAt), base.lpa.ToMongo())
        && (r == PersonEntity(person) <==> CasModified(old(base.lpas.docs), base.lpa.id, old(base.lpa.updatedAt), base.lpa.ToMongo()))
        && (r != PersonEntity(person) ==> r == Failed(StaleWrite))
    {
      var denied := base.CheckAccess(None);
      if denied.Some? {
        return Failed(denied.value);
      }
      var got := base.GetLpa();
      if got.Err? {
        return Failed(got.failure);
      }
      var lpa := got.value;
      var id;
      if data.id.None? {
        id := NextId(lpa.document.peopleToNotify);
      } else {
        id := data.id.value;
      }
      var person := Person(id, data.details);
      lpa.document := lpa.document.(peopleToNotify := lpa.document.peopleToNotify + [person]);
      var failure := base.UpdateLpa(lpa, now);
      if failure.Some? {
        return Failed(failure.value);
      }
      r := PersonEntity(person);
    }

    /** `fetch($id)`: the first person with that id, or a 404. */
    method Fetch(id: int) returns (r: Response)
      ensures base.CheckAccess(None).Some? ==> r == Failed(base.CheckAccess(None).value)
      ensures base.CheckAccess(None).None? && base.lpa == null ==> r == Failed(LpaNotSet)
      ensures base.CheckAccess(None).None? && base.lpa != null ==>
        var people := base.lpa.document.peopleToNotify;
        && (r == NotFound <==> forall j :: 0 <= j < |people| ==> people[j].id != id)
        && (r != NotFound ==> exists k ::
              0 <= k < |people| && r == PersonEntity(people[k]) && people[k].id == id
              && (forall j :: 0 <= j < k ==> people[j].id != id))
    {
      var denied := base.CheckAccess(None);
      if denied.Some? {
        return Failed(denied.value);
      }
      var got := base.GetLpa();
      if got.Err? {
        return Failed(got.failure);
      }
      var people := got.value.document.peopleToNotify;
      var k := FirstMatch(people, id);
      if k.None? {
        return NotFound;
      }
      r := PersonEntity(people[k.value]);
    }

    /** `fetchAll()`: every person on a single page, or the empty collection. */
    method FetchAll() returns (r: Response)
      ensures base.CheckAccess(None).Some? ==> r == Failed(base.CheckAccess(None).value)
      ensures base.CheckAccess(None).None? && base.lpa == null ==> r == Failed(LpaNotSet)
      ensures base.CheckAccess(None).None? && base.lpa != null ==>
        var people := base.lpa.document.peopleToNotify;
        && (people == [] ==> r == EmptyCollection)
        && (people != [] ==> r == Collection(people, |people|))
    {
      var denied := base.CheckAccess(None);
      if denied.Some? {
        return Failed(denied.value);
      }
      var got := base.GetLpa();
      if got.Err? {
        return Failed(got.failure);
      }
      var people := got.value.document.peopleToNotify;
      if |people| == 0 {
        return EmptyCollection;
      }
      r := Collection(people, |people|);
    }

    /** `update($data, $id)`: the first person with that id is replaced in place by the
        client's person, which keeps the id asked for; with no match nothing is saved. */
    method Update(data: PersonData, id: int, now: int) returns (r: Response)
      modifies base.lpa, base.lpas
      ensures base.CheckAccess(None).Some? ==>
        r == Failed(base.CheckAccess(None).value) && base.lpas.docs == old(base.lpas.docs)
      ensures base.CheckAccess(None).None? && base.lpa == null ==>
        r == Failed(LpaNotSet) && base.lpas.docs == old(base.lpas.docs)
      ensures base.CheckAccess(None).None? && base.lpa != null ==>
        var people := old(base.lpa.document.peopleToNotify);
        var person := Person(id, data.details);
        && ((forall j :: 0 <= j < |people| ==> people[j].id != id) ==>
              r == NotFound && unchanged(base.lpa) && base.lpas.docs == old(base.lpas.docs))
        && (forall k :: 0 <= k < |people| && people[k].id == id && (forall j :: 0 <= j < k ==> people[j].id != id) ==>
              && base.lpa.document == old(base.lpa.document).(peopleToNotify := people[k := person])
              && base.lpa.updatedAt == now
              && base.lpas.docs == CasStore(old(base.lpas.docs), base.lpa.id, old(base.lpa.updatedAt), base.lpa.ToMongo())
              && (r == PersonEntity(person) <==> CasModified(old(base.lpas.docs), base.lpa.id, old(base.lpa.updatedAt), base.lpa.ToMongo()))
              && (r != PersonEntity(person) ==> r == Failed(StaleWrite)))
    {
      var denied := base.CheckAccess(None);
      if denied.Some? {
        return Failed(denied.value);
      }
      var got := base.GetLpa();
      if got.Err? {
        return Failed(got.failure);
      }
      var lpa := got.value;
      var k := FirstMatch(lpa.document.peopleToNotify, id);
      if k.None? {
        return NotFound;
      }
      var person := Person(id, data.details);
      lpa.document := lpa.document.(peopleToNotify := lpa.document.peopleToNotify[k.value := person]);
      var failure := base.UpdateLpa(lpa, now);
      if failure.Some? {
        return Failed(failure.value);
      }
      r := PersonEntity(person);
    }

    /** `delete($id)`: the first person with that id is removed from the loaded LPA; an
        invalid document is a validation problem and an invalid LPA an exception, neither
        saved; otherwise the LPA is saved and the answer is `true`. `documentValid` and
        `lpaValid` are the data model's validations. */
    method Delete(id: int, now: int, documentValid: LpaDocument -> bool, lpaValid: Versioned<LpaBody> -> bool) returns (r: Response)
      modifies base.lpa, base.lpas
      ensures base.CheckAccess(None).Some? ==>
        r == Failed(base.CheckAccess(None).value) && base.lpas.docs == old(base.lpas.docs)
      ensures base.CheckAccess(None).None? && base.lpa == null ==>
        r == Failed(LpaNotSet) && base.lpas.docs == old(base.lpas.docs)
      ensures base.CheckAccess(None).None? && base.lpa != null ==>
        var people := old(base.lpa.document.peopleToNotify);
        && ((forall j :: 0 <= j < |people| ==> people[j].id != id) ==>
              r == NotFound && unchanged(base.lpa) && base.lpas.docs == old(base.lpas.docs))
        && (forall k :: 0 <= k < |people| && people[k].id == id && (forall j :: 0 <= j < k ==> people[j].id != id) ==>
              var document := old(base.lpa.document).(peopleToNotify := RemoveAt(people, k));
              var before := Versioned(old(base.lpa.updatedAt), LpaBody(old(base.lpa.user), document, old(base.lpa.other)));
              && base.lpa.document == document
              && (!documentValid(document) ==> r == ValidationProblem && base.lpas.docs == old(base.lpas.docs))
              && (documentValid(document) && !lpaValid(before) ==> r == MalformedLpa && base.lpas.docs == old(base.lpas.docs))
              && (documentValid(document) && lpaValid(before) ==>
                    && base.lpa.updatedAt == now
                    && base.lpas.docs == CasStore(old(base.lpas.docs), base.lpa.id, old(base.lpa.updatedAt), base.lpa.ToMongo())
                    && (r == Removed <==> CasModified(old(base.lpas.docs), base.lpa.id, old(base.lpa.updatedAt), base.lpa.ToMongo()))
                    && (r != Removed ==> r == Failed(StaleWrite))))
    {
      var denied := base.CheckAccess(None);
      if denied.Some? {
        return Failed(denied.value);
      }
      var got := base.GetLpa();
      if got.Err? {
        return Failed(got.failure);
      }
      var lpa := got.value;
      var k := FirstMatch(lpa.document.peopleToNotify, id);
      if k.None? {
        return NotFound;
      }
      lpa.document := lpa.document.(peopleToNotify := RemoveAt(lpa.document.peopleToNotify, k.value));
      if !documentValid(lpa.document) {
        return ValidationProblem;
      }
      if !lpaValid(lpa.ToMongo()) {
        return MalformedLpa;
      }
      var failure := base.UpdateLpa(lpa, now);
      if failure.Some? {
        return Failed(failure.value);
      }
      r := Removed;
    }
  }
}
