/**
 * The records the ownership diagram is made of: persons, recorded
 * documents, ownership nodes and the inbound transfers each node carries.
 * Empty strings stand for the fields JavaScript leaves blank (`''`), and
 * `None` for those it leaves `null` or undefined.
 */
module Ownership {
  import opened Text

  type Id = string

  /** One inbound conveyance: `percentage` percent of the grantor's own current interest. */
  datatype Transfer = Transfer(
    fromId: Id,
    percentage: real,
    documentId: Option<Id>,
    edgeColor: Option<string>)

  /** An ownership node. No transfers makes it a root, the original 100% owner. */
  datatype Owner = Owner(
    id: Id,
    name: string,
    nameAsWritten: string,
    personId: Id,
    notes: string,
    transfers: seq<Transfer>,
    originalLevel: Option<int>,
    color: Option<string>,
    borderColor: Option<string>,
    lineColor: Option<string>,
    relationship: string,
    sourceDocumentId: Option<Id>)

  /** The fields of the document form (`EMPTY_DOC_FORM`). */
  datatype DocForm = DocForm(
    instrumentNumber: string,
    book: string,
    page: string,
    dateRecorded: string,
    documentDate: string,
    grantor: string,
    documentTitle: string,
    note: string)

  const EmptyDocForm := DocForm("", "", "", "", "", "", "", "")

  /** A recorded document: an id and the fields of the form it was created from. */
  datatype Document = Document(id: Id, form: DocForm)

  datatype Person = Person(id: Id, primaryName: string, aliases: seq<string>)

  /** The ids of the nodes. */
  function IdSet(owners: seq<Owner>): set<Id> {
    set o | o in owners :: o.id
  }

  /** Node ids are unique, as `generateId` intends them to be. */
  ghost predicate UniqueIds(owners: seq<Owner>) {
    forall i, j :: 0 <= i < j < |owners| ==> owners[i].id != owners[j].id
  }

  /** `owners.find(o => o.id === id)`: the first node with that id. */
  function Find(owners: seq<Owner>, id: Id): (r: Option<Owner>)
    ensures r.None? <==> id !in IdSet(owners)
    ensures r.Some? ==> r.value in owners && r.value.id == id
  {
    if owners == [] then None
    else if owners[0].id == id then Some(owners[0])
    else
      var r := Find(owners[1..], id);
      assert IdSet(owners) == {owners[0].id} + IdSet(owners[1..]) by {
        assert owners == [owners[0]] + owners[1..];
      }
      r
  }

  /** `Find` returns the first node with the id: any node before it has another id. */
  lemma {:induction false} FindIsFirst(owners: seq<Owner>, id: Id, k: nat)
    requires k < |owners| && owners[k].id == id
    requires forall j :: 0 <= j < k ==> owners[j].id != id
    ensures Find(owners, id) == Some(owners[k])
  {
    if k > 0 {
      FindIsFirst(owners[1..], id, k - 1);
    }
  }

  /** With unique ids, `Find` returns the node that carries the id. */
  lemma {:induction false} FindUnique(owners: seq<Owner>, i: nat)
    requires UniqueIds(owners)
    requires i < |owners|
    ensures Find(owners, owners[i].id) == Some(owners[i])
  {
    if i > 0 {
      FindUnique(owners[1..], i - 1);
    }
  }

  /** `persons.find(p => p.id === id)`. */
  function FindPerson(persons: seq<Person>, id: Id): (r: Option<Person>)
    ensures r.Some? ==> r.value in persons && r.value.id == id
    ensures r.None? ==> forall p :: p in persons ==> p.id != id
  {
    if persons == [] then None
    else if persons[0].id == id then Some(persons[0])
    else FindPerson(persons[1..], id)
  }

  /** `FindPerson` returns the first person with the id. */
  lemma {:induction false} FindPersonIsFirst(persons: seq<Person>, id: Id, k: nat)
    requires k < |persons| && persons[k].id == id
    requires forall j :: 0 <= j < k ==> persons[j].id != id
    ensures FindPerson(persons, id) == Some(persons[k])
  {
    if k > 0 {
      FindPersonIsFirst(persons[1..], id, k - 1);
    }
  }
}
