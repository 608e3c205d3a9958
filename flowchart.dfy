/**
 * The editing state machine of the chart component: the persons, documents
 * and ownership nodes it holds, the handlers that change them, and the
 * derived values it shows (per-person totals, a document's grantees, each
 * node's current ownership and transfer breakdown).
 *
 * `generateId` is a fresh-id oracle: every handler that creates a record
 * takes the id it would draw as a parameter. An `alert` is the `Alerted`
 * outcome of a submission.
 */
module FlowChart {
  import opened Text
  import opened Seqs
  import opened Ownership
  import opened OwnerCalculations
  import opened Formatters
  import AutoLayout

  /** INITIAL_PERSON and INITIAL_OWNER. */
  const RootId: Id := "root"
  const InitialPerson := Person("person-root", "Original Owner", [])
  const InitialOwner := Owner(RootId, "Original Owner", "Original Owner", "person-root", "", [], Some(0),
                              None, None, None, "", None)

  /** The outcome of a submission: nothing happens, an alert is shown, or the state changes. */
  datatype Outcome = Ignored | Alerted(message: string) | Applied

  /** The slack allowed above the grantor's remaining interest. */
  const Tolerance: real := 0.01

  // ----- percentage validation -----

  datatype Checked = Accepted(pct: real) | Refused(message: string)

  function RangeMessage(remaining: real): string {
    "Percentage must be between 0 and " + FractionText(remaining)
  }

  /** The checks both transfer dialogs apply to the typed percentage: it must
      parse, be positive, and not exceed the grantor's remaining interest by
      more than the tolerance. */
  function CheckPercentage(text: string, remaining: real): (r: Checked)
    ensures r.Accepted? <==>
              ParsePercentageInput(text).Some? && 0.0 < ParsePercentageInput(text).value <= remaining + Tolerance
    ensures r.Accepted? ==> r.pct == ParsePercentageInput(text).value
    ensures ParsePercentageInput(text).None? ==> r == Refused("Invalid percentage")
    ensures ParsePercentageInput(text).Some? && r.Refused? ==> r.message == RangeMessage(remaining)
  {
    match ParsePercentageInput(text)
    case None => Refused("Invalid percentage")
    case Some(pct) =>
      if pct <= 0.0 || pct > remaining + Tolerance then Refused(RangeMessage(remaining)) else Accepted(pct)
  }

  // ----- the records and their updates -----

  /** The three collections the handlers edit. */
  datatype Records = Records(persons: seq<Person>, documents: seq<Document>, owners: seq<Owner>)

  /** A new document is saved only when one of these fields is filled in. */
  predicate HasDocFields(f: DocForm) {
    f.instrumentNumber != "" || f.book != "" || f.documentTitle != ""
  }

  /** The document a submitted transfer cites: the new one, none when "new"
      was chosen with an empty form, or the selected one. */
  function ResolvedDocId(selected: Option<Id>, form: DocForm, newDocId: Id): (r: Option<Id>)
    ensures selected != Some("new") ==> r == selected
    ensures selected == Some("new") ==> (r.Some? <==> HasDocFields(form))
  {
    if selected == Some("new") then (if HasDocFields(form) then Some(newDocId) else None) else selected
  }

  /** The document `addDocument` appends, if any. */
  function CreatedDocuments(selected: Option<Id>, form: DocForm, newDocId: Id): (r: seq<Document>)
    ensures |r| <= 1
    ensures r != [] <==> selected == Some("new") && HasDocFields(form)
    ensures r != [] ==> r[0] == Document(newDocId, form) && ResolvedDocId(selected, form, newDocId) == Some(newDocId)
  {
    if selected == Some("new") && HasDocFields(form) then [Document(newDocId, form)] else []
  }

  /** `value || fallback` for a colour field. */
  function OrElse(c: string, fallback: Option<string>): Option<string> {
    if c != "" then Some(c) else fallback
  }

  /** `persons.find(p => p.id === personId)?.primaryName || 'Unknown'`. */
  function KnownName(persons: seq<Person>, personId: Id): (r: string)
    ensures r != ""
    ensures FindPerson(persons, personId).Some? && FindPerson(persons, personId).value.primaryName != "" ==>
              r == FindPerson(persons, personId).value.primaryName
    ensures FindPerson(persons, personId).None? || FindPerson(persons, personId).value.primaryName == "" ==>
              r == "Unknown"
  {
    match FindPerson(persons, personId)
    case Some(p) => if p.primaryName != "" then p.primaryName else "Unknown"
    case None => "Unknown"
  }

  /** `owners.find(o => o.personId === personId && o.id !== 'root')`. */
  function ExistingNode(owners: seq<Owner>, personId: Id): (r: Option<Owner>)
    ensures r.Some? ==> r.value in owners && r.value.personId == personId && r.value.id != RootId
    ensures r.None? <==> forall o :: o in owners ==> o.personId != personId || o.id == RootId
  {
    if owners == [] then None
    else if owners[0].personId == personId && owners[0].id != RootId then Some(owners[0])
    else ExistingNode(owners[1..], personId)
  }

  /** `ExistingNode` is the first non-root node of the person. */
  lemma {:induction false} ExistingNodeIsFirst(owners: seq<Owner>, personId: Id, k: nat)
    requires k < |owners| && owners[k].personId == personId && owners[k].id != RootId
    requires forall j :: 0 <= j < k ==> !(owners[j].personId == personId && owners[j].id != RootId)
    ensures ExistingNode(owners, personId) == Some(owners[k])
  {
    if k > 0 {
      ExistingNodeIsFirst(owners[1..], personId, k - 1);
    }
  }

  /** `owners.map(o => o.id === id ? f(o) : o)`. */
  function UpdateNode(owners: seq<Owner>, id: Id, f: Owner -> Owner): (r: seq<Owner>)
    ensures |r| == |owners|
    ensures forall k :: 0 <= k < |owners| ==> r[k] == if owners[k].id == id then f(owners[k]) else owners[k]
  {
    seq(|owners|, k requires 0 <= k < |owners| => if owners[k].id == id then f(owners[k]) else owners[k])
  }

  /** Updating an id no node has changes nothing. */
  lemma UpdateAbsentId(owners: seq<Owner>, id: Id, f: Owner -> Owner)
    requires id !in IdSet(owners)
    ensures UpdateNode(owners, id, f) == owners
  {
    var r := UpdateNode(owners, id, f);
    forall k | 0 <= k < |owners|
      ensures r[k] == owners[k]
    {
      assert owners[k].id in IdSet(owners);
    }
  }

  /** An update that keeps every id keeps the id set. */
  lemma UpdateKeepsIds(owners: seq<Owner>, id: Id, f: Owner -> Owner)
    requires forall o :: f(o).id == o.id
    ensures IdSet(UpdateNode(owners, id, f)) == IdSet(owners)
  {
    var r := UpdateNode(owners, id, f);
    forall x | x in IdSet(owners)
      ensures x in IdSet(r)
    {
      var k :| 0 <= k < |owners| && owners[k].id == x;
      assert r[k].id == x;
    }
    forall x | x in IdSet(r)
      ensures x in IdSet(owners)
    {
      var k :| 0 <= k < |r| && r[k].id == x;
      assert owners[k].id == x;
    }
  }

  // ----- handleSubmitGrantee -----

  datatype GranteeForm = GranteeForm(
    selectedPersonId: Id,
    newGranteeName: string,
    percentage: string,
    selectedDocumentId: Option<Id>,
    newDocForm: DocForm,
    fillColor: string,
    borderColor: string,
    lineColor: string)

  /** The submission is dropped without a message: no grantor chosen, no
      percentage typed, or a new person without a name. */
  predicate GranteeIgnored(parentId: Option<Id>, form: GranteeForm) {
    parentId.None? || form.percentage == "" ||
    (form.selectedPersonId == "new" && Trim(form.newGranteeName) == "")
  }

  /** The grantee's existing node after the merge: the new transfer appended,
      colours replaced where the form gives one, its tier left alone. */
  function MergeTransfer(o: Owner, t: Transfer, fill: string, border: string, line: string): (r: Owner)
    ensures r.id == o.id && r.originalLevel == o.originalLevel && r.personId == o.personId
    ensures r.transfers == o.transfers + [t]
    ensures r.name == o.name && r.nameAsWritten == o.nameAsWritten && r.notes == o.notes
    ensures r.relationship == o.relationship && r.sourceDocumentId == o.sourceDocumentId
    ensures fill != "" ==> r.color == Some(fill)
    ensures fill == "" ==> r.color == o.color
    ensures border != "" ==> r.borderColor == Some(border)
    ensures border == "" ==> r.borderColor == o.borderColor
    ensures line != "" ==> r.lineColor == Some(line)
    ensures line == "" ==> r.lineColor == o.lineColor
  {
    o.(transfers := o.transfers + [t],
       color := OrElse(fill, o.color),
       borderColor := OrElse(border, o.borderColor),
       lineColor := OrElse(line, o.lineColor))
  }

  function MergeWith(t: Transfer, form: GranteeForm): Owner -> Owner {
    (o: Owner) => MergeTransfer(o, t, form.fillColor, form.borderColor, form.lineColor)
  }

  /** The node handleSubmitGrantee appends when the person has none yet. */
  function NewGrantee(id: Id, name: string, nameAsWritten: string, personId: Id, t: Transfer, level: int,
                      form: GranteeForm): Owner {
    Owner(id, name, nameAsWritten, personId, "", [t], Some(level),
          OrElse(form.fillColor, None), OrElse(form.borderColor, None), OrElse(form.lineColor, None), "", None)
  }

  /** The person the submission is for: the new one or the selected one. */
  function GranteePerson(form: GranteeForm, newPersonId: Id): Id {
    if form.selectedPersonId == "new" then newPersonId else form.selectedPersonId
  }

  /** The person `addPerson` appends for a new grantee, if any. */
  function CreatedPersons(selectedPersonId: Id, formatted: string, newPersonId: Id): seq<Person> {
    if selectedPersonId == "new" then [Person(newPersonId, ToTitleCase(Trim(formatted)), [])] else []
  }

  /** The nodes after transfer `t` to person `personId`: merged into the
      person's existing node, or carried by a new node one tier below the grantor. */
  function GranteeOwners(owners: seq<Owner>, persons: seq<Person>, parentId: Id, form: GranteeForm,
                         personId: Id, t: Transfer, newNodeId: Id): (r: seq<Owner>)
    requires ExistingNode(owners, personId).None? ==> ChainEnds(owners, parentId, {})
    ensures ExistingNode(owners, personId).Some? ==> |r| == |owners|
    ensures ExistingNode(owners, personId).None? ==>
              |r| == |owners| + 1 && r[..|owners|] == owners && r[|owners|].transfers == [t] &&
              r[|owners|].personId == personId && r[|owners|].id == newNodeId
  {
    match ExistingNode(owners, personId)
    case Some(existing) =>
      UpdateNode(owners, existing.id, MergeWith(t, form))
    case None =>
      owners + [GranteeNode(persons, form, personId, t, newNodeId, NodeLevel(owners, parentId) + 1)]
  }

  /** The node created for a person without one: the typed name title-cased,
      else the person's name, on the given tier (the other fields: GranteeNodeFields). */
  function GranteeNode(persons: seq<Person>, form: GranteeForm, personId: Id, t: Transfer, newNodeId: Id,
                       level: int): (r: Owner)
    ensures r.id == newNodeId && r.personId == personId && r.transfers == [t] && r.originalLevel == Some(level)
    ensures r.name != ""
    ensures Trim(form.newGranteeName) != "" ==> r.name == ToTitleCase(Trim(form.newGranteeName))
  {
    var formatted := ToTitleCase(Trim(form.newGranteeName));
    var name := if formatted != "" then formatted else KnownName(persons, personId);
    var asWritten := if Trim(form.newGranteeName) != "" then Trim(form.newGranteeName) else formatted;
    NewGrantee(newNodeId, name, asWritten, personId, t, level, form)
  }

  /** The rest of the new grantee node: with no typed name it takes the
      person's name (or 'Unknown'); nameAsWritten is the trimmed typed name;
      notes are empty; each colour is the form's, else null. */
  lemma GranteeNodeFields(persons: seq<Person>, form: GranteeForm, personId: Id, t: Transfer, newNodeId: Id,
                          level: int)
    ensures var r := GranteeNode(persons, form, personId, t, newNodeId, level);
            (Trim(form.newGranteeName) == "" ==> r.name == KnownName(persons, personId)) &&
            r.nameAsWritten == Trim(form.newGranteeName) &&
            r.notes == "" && r.relationship == "" && r.sourceDocumentId.None? &&
            (form.fillColor != "" ==> r.color == Some(form.fillColor)) &&
            (form.fillColor == "" ==> r.color.None?) &&
            (form.borderColor != "" ==> r.borderColor == Some(form.borderColor)) &&
            (form.borderColor == "" ==> r.borderColor.None?) &&
            (form.lineColor != "" ==> r.lineColor == Some(form.lineColor)) &&
            (form.lineColor == "" ==> r.lineColor.None?)
  {
    var trimmed := Trim(form.newGranteeName);
    assert |ToTitleCase(trimmed)| == |trimmed|;
  }

  /** The two ways GranteeOwners can go, by whether the person has a node. */
  lemma GranteeOwnersCases(owners: seq<Owner>, persons: seq<Person>, parentId: Id, form: GranteeForm,
                           personId: Id, t: Transfer, newNodeId: Id)
    requires ExistingNode(owners, personId).None? ==> ChainEnds(owners, parentId, {})
    ensures ExistingNode(owners, personId).Some? ==>
              GranteeOwners(owners, persons, parentId, form, personId, t, newNodeId) ==
              UpdateNode(owners, ExistingNode(owners, personId).value.id, MergeWith(t, form))
    ensures ExistingNode(owners, personId).None? ==>
              GranteeOwners(owners, persons, parentId, form, personId, t, newNodeId) ==
              owners + [GranteeNode(persons, form, personId, t, newNodeId, NodeLevel(owners, parentId) + 1)]
  {
  }

  /** The records after an accepted grantee submission of `pct` percent of `parentId`. */
  function AddGrantee(db: Records, parentId: Id, form: GranteeForm, pct: real,
                      newPersonId: Id, newDocId: Id, newNodeId: Id): Records
    requires ExistingNode(db.owners, GranteePerson(form, newPersonId)).None? ==> ChainEnds(db.owners, parentId, {})
  {
    var t := Transfer(parentId, pct, ResolvedDocId(form.selectedDocumentId, form.newDocForm, newDocId), None);
    Records(db.persons + CreatedPersons(form.selectedPersonId, ToTitleCase(Trim(form.newGranteeName)), newPersonId),
            db.documents + CreatedDocuments(form.selectedDocumentId, form.newDocForm, newDocId),
            GranteeOwners(db.owners, db.persons, parentId, form, GranteePerson(form, newPersonId), t, newNodeId))
  }

  /** The records after a grantee submission, assembled part by part. */
  lemma AddGranteeOf(db: Records, parentId: Id, form: GranteeForm, pct: real, newPersonId: Id, newDocId: Id,
                     newNodeId: Id, personId: Id, t: Transfer, ps: seq<Person>, ds: seq<Document>, os: seq<Owner>)
    requires ExistingNode(db.owners, GranteePerson(form, newPersonId)).None? ==> ChainEnds(db.owners, parentId, {})
    requires personId == GranteePerson(form, newPersonId)
    requires t == Transfer(parentId, pct, ResolvedDocId(form.selectedDocumentId, form.newDocForm, newDocId), None)
    requires ps == db.persons + CreatedPersons(form.selectedPersonId, ToTitleCase(Trim(form.newGranteeName)), newPersonId)
    requires ds == db.documents + CreatedDocuments(form.selectedDocumentId, form.newDocForm, newDocId)
    requires os == GranteeOwners(db.owners, db.persons, parentId, form, personId, t, newNodeId)
    ensures Records(ps, ds, os) == AddGrantee(db, parentId, form, pct, newPersonId, newDocId, newNodeId)
  {
  }

  /** When the person already has a node (other than the root), the transfer
      is appended to it: no node is added, no id changes, every other node is
      untouched and that node keeps its stored tier. */
  lemma GranteeMergesIntoExistingNode(owners: seq<Owner>, persons: seq<Person>, parentId: Id, form: GranteeForm,
                                      personId: Id, t: Transfer, newNodeId: Id)
    requires ExistingNode(owners, personId).Some?
    ensures var r := GranteeOwners(owners, persons, parentId, form, personId, t, newNodeId);
            var e := ExistingNode(owners, personId).value;
            |r| == |owners| && IdSet(r) == IdSet(owners) &&
            (forall k :: 0 <= k < |r| && owners[k].id != e.id ==> r[k] == owners[k]) &&
            (forall k :: 0 <= k < |r| && owners[k].id == e.id ==>
               r[k].originalLevel == owners[k].originalLevel && r[k].transfers == owners[k].transfers + [t] &&
               r[k].name == owners[k].name && r[k].nameAsWritten == owners[k].nameAsWritten &&
               r[k].notes == owners[k].notes &&
               r[k].color == (if form.fillColor != "" then Some(form.fillColor) else owners[k].color) &&
               r[k].borderColor == (if form.borderColor != "" then Some(form.borderColor) else owners[k].borderColor) &&
               r[k].lineColor == (if form.lineColor != "" then Some(form.lineColor) else owners[k].lineColor))
  {
    var e := ExistingNode(owners, personId).value;
    UpdateKeepsIds(owners, e.id, MergeWith(t, form));
  }

  /** Otherwise exactly one node is appended, carrying the one transfer from
      the grantor, one tier below it; with a fresh id it is found under that
      id and sits on that tier for both tier computations. */
  lemma GranteeCreatesNode(owners: seq<Owner>, persons: seq<Person>, parentId: Id, form: GranteeForm,
                           personId: Id, t: Transfer, newNodeId: Id)
    requires ChainEnds(owners, parentId, {})
    requires ExistingNode(owners, personId).None?
    requires newNodeId !in IdSet(owners)
    ensures var r := GranteeOwners(owners, persons, parentId, form, personId, t, newNodeId);
            |r| == |owners| + 1 && r[..|owners|] == owners &&
            r[|owners|].id == newNodeId && r[|owners|].personId == personId && r[|owners|].transfers == [t] &&
            Find(r, newNodeId) == Some(r[|owners|]) &&
            ChainEnds(r, newNodeId, {}) &&
            NodeLevel(r, newNodeId) == NodeLevel(owners, parentId) + 1 &&
            AutoLayout.Level(r, newNodeId) == NodeLevel(owners, parentId) + 1
  {
    var r := GranteeOwners(owners, persons, parentId, form, personId, t, newNodeId);
    var n := r[|owners|];
    assert r == owners + [n];
    FindAppendFresh(owners, n);
    assert LegacyParent(r, newNodeId).None?;
  }

  /** Appending a node under a fresh id makes `Find` return it for that id. */
  lemma {:induction false} FindAppendFresh(owners: seq<Owner>, n: Owner)
    requires n.id !in IdSet(owners)
    ensures Find(owners + [n], n.id) == Some(n)
  {
    if owners != [] {
      assert (owners + [n])[1..] == owners[1..] + [n];
      assert IdSet(owners[1..]) <= IdSet(owners) by {
        forall x | x in IdSet(owners[1..]) ensures x in IdSet(owners) {
          var o :| o in owners[1..] && o.id == x;
          assert o in owners;
        }
      }
      FindAppendFresh(owners[1..], n);
    }
  }

  // ----- handleSubmitTransfer -----

  function AppendTransfer(t: Transfer): Owner -> Owner {
    (o: Owner) => o.(transfers := o.transfers + [t])
  }

  /** The records after an accepted extra source transfer into `toId`. */
  function AddSourceTransfer(db: Records, toId: Id, fromId: Id, pct: real, documentId: Option<Id>,
                             newDocForm: DocForm, newDocId: Id): (r: Records)
    ensures r.persons == db.persons
    ensures r.documents == db.documents + CreatedDocuments(documentId, newDocForm, newDocId)
    ensures |r.owners| == |db.owners|
    ensures forall k :: 0 <= k < |db.owners| && db.owners[k].id != toId ==> r.owners[k] == db.owners[k]
    ensures forall k :: 0 <= k < |db.owners| && db.owners[k].id == toId ==>
              r.owners[k] == db.owners[k].(transfers := db.owners[k].transfers +
                [Transfer(fromId, pct, ResolvedDocId(documentId, newDocForm, newDocId), None)])
  {
    var t := Transfer(fromId, pct, ResolvedDocId(documentId, newDocForm, newDocId), None);
    Records(db.persons, db.documents + CreatedDocuments(documentId, newDocForm, newDocId),
            UpdateNode(db.owners, toId, AppendTransfer(t)))
  }

  // ----- handleSubmitEdit -----

  datatype EditSubmission = EditSubmission(
    name: string,
    nameAsWritten: string,
    notes: string,
    personId: Id,
    transfers: Option<seq<Transfer>>,
    fillColor: string,
    borderColor: string,
    lineColor: string,
    relationship: string)

  /** The edited node: title-cased name, the form's fields, and the
      transfers replaced only when the form supplies them. */
  function ApplyEdit(o: Owner, e: EditSubmission): (r: Owner)
    ensures r.id == o.id && r.originalLevel == o.originalLevel && r.sourceDocumentId == o.sourceDocumentId
    ensures r.transfers == if e.transfers.Some? then e.transfers.value else o.transfers
    ensures r.name == ToTitleCase(Trim(e.name))
    ensures r.nameAsWritten == e.nameAsWritten && r.notes == e.notes && r.personId == e.personId
    ensures r.relationship == e.relationship
    ensures (r.color.None? <==> e.fillColor == "") && (r.color.Some? ==> r.color.value == e.fillColor)
    ensures (r.borderColor.None? <==> e.borderColor == "") && (r.borderColor.Some? ==> r.borderColor.value == e.borderColor)
    ensures (r.lineColor.None? <==> e.lineColor == "") && (r.lineColor.Some? ==> r.lineColor.value == e.lineColor)
  {
    o.(name := ToTitleCase(Trim(e.name)),
       nameAsWritten := e.nameAsWritten,
       notes := e.notes,
       personId := e.personId,
       color := OrElse(e.fillColor, None),
       borderColor := OrElse(e.borderColor, None),
       lineColor := OrElse(e.lineColor, None),
       relationship := e.relationship,
       transfers := if e.transfers.Some? then e.transfers.value else o.transfers)
  }

  function EditWith(e: EditSubmission): Owner -> Owner {
    (o: Owner) => ApplyEdit(o, e)
  }

  // ----- handleSubmitAddNode -----

  datatype NodeForm = NodeForm(
    selectedPersonId: Id,
    newName: string,
    notes: string,
    fillColor: string,
    borderColor: string,
    lineColor: string,
    selectedDocumentId: Option<Id>,
    newDocForm: Option<DocForm>)

  /** The source document of a standalone node: a new one, the selected one
      (unless "none" or "new"), or none. */
  function SourceDocument(form: NodeForm, newDocId: Id): (r: Option<Id>)
    ensures r.Some? && r.value != newDocId ==>
              r == form.selectedDocumentId && r.value != "" && r.value != "none" && r.value != "new"
    ensures StandaloneDocuments(form, newDocId) != [] ==> r == Some(newDocId)
    ensures StandaloneDocuments(form, newDocId) == [] ==>
              r == if form.selectedDocumentId.Some? && form.selectedDocumentId.value != "" &&
                      form.selectedDocumentId.value != "none" && form.selectedDocumentId.value != "new"
                   then form.selectedDocumentId else None
  {
    if form.selectedDocumentId == Some("new") && form.newDocForm.Some? && HasDocFields(form.newDocForm.value) then
      Some(newDocId)
    else if form.selectedDocumentId.Some? && form.selectedDocumentId.value != "" &&
            form.selectedDocumentId.value != "none" && form.selectedDocumentId.value != "new" then
      form.selectedDocumentId
    else None
  }

  /** The document `addDocument` appends for a standalone node, if any. */
  function StandaloneDocuments(form: NodeForm, newDocId: Id): (r: seq<Document>)
    ensures |r| <= 1 && forall k :: 0 <= k < |r| ==> r[k].id == newDocId
    ensures r != [] <==> form.selectedDocumentId == Some("new") && form.newDocForm.Some? && HasDocFields(form.newDocForm.value)
    ensures r != [] ==> r == [Document(newDocId, form.newDocForm.value)]
  {
    if form.selectedDocumentId == Some("new") && form.newDocForm.Some? && HasDocFields(form.newDocForm.value) then
      [Document(newDocId, form.newDocForm.value)]
    else []
  }

  /** The standalone node: the person's name, no transfers, stored on tier 0. */
  function StandaloneNode(persons: seq<Person>, form: NodeForm, newPersonId: Id, newDocId: Id, newNodeId: Id): (r: Owner)
    ensures r.id == newNodeId && r.transfers == [] && r.originalLevel == Some(0)
    ensures r.sourceDocumentId == SourceDocument(form, newDocId)
  {
    var isNew := form.selectedPersonId == "new";
    var personId := if isNew then newPersonId else form.selectedPersonId;
    var personName := if isNew then ToTitleCase(Trim(form.newName)) else KnownName(persons, personId);
    Owner(newNodeId, personName, personName, personId, form.notes, [], Some(0),
          OrElse(form.fillColor, None), OrElse(form.borderColor, None), OrElse(form.lineColor, None),
          "", SourceDocument(form, newDocId))
  }

  /** The rest of the standalone node: the new or the selected person; name
      and nameAsWritten both the title-cased typed name for a new person, else
      the person's name (or 'Unknown'); the form's notes; each colour the
      form's, else null. */
  lemma StandaloneNodeFields(persons: seq<Person>, form: NodeForm, newPersonId: Id, newDocId: Id, newNodeId: Id)
    ensures var r := StandaloneNode(persons, form, newPersonId, newDocId, newNodeId);
            r.personId == (if form.selectedPersonId == "new" then newPersonId else form.selectedPersonId) &&
            r.name == r.nameAsWritten &&
            r.name == (if form.selectedPersonId == "new" then ToTitleCase(Trim(form.newName))
                       else KnownName(persons, form.selectedPersonId)) &&
            r.notes == form.notes && r.relationship == "" &&
            (form.fillColor != "" ==> r.color == Some(form.fillColor)) &&
            (form.fillColor == "" ==> r.color.None?) &&
            (form.borderColor != "" ==> r.borderColor == Some(form.borderColor)) &&
            (form.borderColor == "" ==> r.borderColor.None?) &&
            (form.lineColor != "" ==> r.lineColor == Some(form.lineColor)) &&
            (form.lineColor == "" ==> r.lineColor.None?)
  {
  }

  /** The records after adding a standalone node. */
  function AddStandalone(db: Records, form: NodeForm, newPersonId: Id, newDocId: Id, newNodeId: Id): Records {
    Records(db.persons + CreatedPersons(form.selectedPersonId, ToTitleCase(Trim(form.newName)), newPersonId),
            db.documents + StandaloneDocuments(form, newDocId),
            db.owners + [StandaloneNode(db.persons, form, newPersonId, newDocId, newNodeId)])
  }

  /** The records after a standalone-node submission, assembled part by part. */
  lemma AddStandaloneOf(db: Records, form: NodeForm, newPersonId: Id, newDocId: Id, newNodeId: Id,
                        ps: seq<Person>, ds: seq<Document>, os: seq<Owner>)
    requires ps == db.persons + CreatedPersons(form.selectedPersonId, ToTitleCase(Trim(form.newName)), newPersonId)
    requires ds == db.documents + StandaloneDocuments(form, newDocId)
    requires os == db.owners + [StandaloneNode(db.persons, form, newPersonId, newDocId, newNodeId)]
    ensures Records(ps, ds, os) == AddStandalone(db, form, newPersonId, newDocId, newNodeId)
  {
  }

  /** A standalone node under a fresh id is a root: it holds 100% and sits on
      tier 0 for both tier computations. */
  lemma StandaloneIsRoot(db: Records, form: NodeForm, newPersonId: Id, newDocId: Id, newNodeId: Id)
    requires newNodeId !in IdSet(db.owners)
    ensures var r := AddStandalone(db, form, newPersonId, newDocId, newNodeId).owners;
            TotalInterest(r, newNodeId) == 100.0 &&
            ChainEnds(r, newNodeId, {}) && NodeLevel(r, newNodeId) == 0 && AutoLayout.Level(r, newNodeId) == 0
  {
    FindAppendFresh(db.owners, StandaloneNode(db.persons, form, newPersonId, newDocId, newNodeId));
  }

  // ----- handleDelete -----

  function FromIdIsNot(id: Id): Transfer -> bool {
    (t: Transfer) => t.fromId != id
  }

  /** The node with its transfers from `id` removed. */
  function StripTransfersFrom(o: Owner, id: Id): (r: Owner)
    ensures r == o.(transfers := r.transfers)
    ensures forall t :: t in r.transfers <==> t in o.transfers && t.fromId != id
    ensures SubsequenceOf(r.transfers, o.transfers)
    ensures forall t {:trigger multiset(r.transfers)[t]} ::
      multiset(r.transfers)[t] == if t.fromId != id then multiset(o.transfers)[t] else 0
  {
    o.(transfers := Filter(o.transfers, FromIdIsNot(id)))
  }

  function IdIsNot(id: Id): Owner -> bool {
    (o: Owner) => o.id != id
  }

  /** Every node with its transfers from `id` removed, in place. */
  function StripAll(owners: seq<Owner>, id: Id): (r: seq<Owner>)
    ensures |r| == |owners|
    ensures forall k :: 0 <= k < |owners| ==> r[k] == StripTransfersFrom(owners[k], id)
  {
    seq(|owners|, k requires 0 <= k < |owners| => StripTransfersFrom(owners[k], id))
  }

  /** handleDelete's update of the nodes: strip the transfers from `id`
      everywhere, then drop the nodes with that id. */
  function DeleteOwner(owners: seq<Owner>, id: Id): (r: seq<Owner>)
    ensures |r| <= |owners|
    ensures forall o :: o in r ==> o.id != id && forall t :: t in o.transfers ==> t.fromId != id
  {
    Filter(StripAll(owners, id), IdIsNot(id))
  }

  /** The deletion keeps every other node, stripped, in its original order. */
  lemma DeleteKeepsOthersInOrder(owners: seq<Owner>, id: Id)
    ensures SubsequenceOf(DeleteOwner(owners, id), StripAll(owners, id))
    ensures forall k :: 0 <= k < |owners| && owners[k].id != id ==> StripTransfersFrom(owners[k], id) in DeleteOwner(owners, id)
  {
    var s := StripAll(owners, id);
    forall k | 0 <= k < |owners| && owners[k].id != id
      ensures StripTransfersFrom(owners[k], id) in DeleteOwner(owners, id)
    {
      assert s[k] == StripTransfersFrom(owners[k], id) && IdIsNot(id)(s[k]);
    }
  }

  /** After the deletion the id is gone and nothing else is. */
  lemma DeleteRemovesId(owners: seq<Owner>, id: Id)
    ensures IdSet(DeleteOwner(owners, id)) == IdSet(owners) - {id}
  {
    forall x | x in IdSet(DeleteOwner(owners, id))
      ensures x in IdSet(owners) - {id}
    {
      DeletedIdWasThere(owners, id, x);
    }
    forall x | x in IdSet(owners) - {id}
      ensures x in IdSet(DeleteOwner(owners, id))
    {
      OtherIdStays(owners, id, x);
    }
  }

  lemma DeletedIdWasThere(owners: seq<Owner>, id: Id, x: Id)
    requires x in IdSet(DeleteOwner(owners, id))
    ensures x in IdSet(owners) - {id}
  {
    var s, r := StripAll(owners, id), DeleteOwner(owners, id);
    var i :| 0 <= i < |r| && r[i].id == x;
    assert r[i] in s && IdIsNot(id)(r[i]);
    var k :| 0 <= k < |s| && s[k] == r[i];
    assert s[k] == StripTransfersFrom(owners[k], id);
    assert owners[k] in owners;
  }

  lemma OtherIdStays(owners: seq<Owner>, id: Id, x: Id)
    requires x in IdSet(owners) - {id}
    ensures x in IdSet(DeleteOwner(owners, id))
  {
    var s := StripAll(owners, id);
    var k :| 0 <= k < |owners| && owners[k].id == x;
    assert IdIsNot(id)(s[k]);
    assert s[k] in DeleteOwner(owners, id);
  }

  /** No remaining node receives anything from the deleted one, and every
      remaining node is an old node with exactly those transfers removed. */
  lemma DeleteLeavesNoTransferFrom(owners: seq<Owner>, id: Id, o: Owner)
    requires o in DeleteOwner(owners, id)
    ensures o.id != id
    ensures forall t :: t in o.transfers ==> t.fromId != id
    ensures exists p :: p in owners && o == StripTransfersFrom(p, id)
  {
    var s := StripAll(owners, id);
    var r := DeleteOwner(owners, id);
    var i :| 0 <= i < |r| && r[i] == o;
    assert r[i] in s;
    var k :| 0 <= k < |s| && s[k] == o;
    assert owners[k] in owners;
  }

  /** Deleting twice is deleting once. */
  lemma DeleteIdempotent(owners: seq<Owner>, id: Id)
    ensures DeleteOwner(DeleteOwner(owners, id), id) == DeleteOwner(owners, id)
  {
    var r := DeleteOwner(owners, id);
    forall k | 0 <= k < |r|
      ensures StripTransfersFrom(r[k], id) == r[k] && IdIsNot(id)(r[k])
    {
      DeleteLeavesNoTransferFrom(owners, id, r[k]);
      FilterAll(r[k].transfers, FromIdIsNot(id));
    }
    assert StripAll(r, id) == r;
    FilterAll(r, IdIsNot(id));
  }

  // ----- handleDeleteDocument -----

  function ClearDocument(t: Transfer, docId: Id): Transfer {
    if t.documentId == Some(docId) then t.(documentId := None) else t
  }

  /** handleDeleteDocument's update of the nodes: every citation of `docId` becomes null. */
  function ClearDocumentRefs(owners: seq<Owner>, docId: Id): (r: seq<Owner>)
    ensures |r| == |owners|
    ensures forall k :: 0 <= k < |owners| ==>
              r[k] == owners[k].(transfers := r[k].transfers) && |r[k].transfers| == |owners[k].transfers|
    ensures forall k, j :: 0 <= k < |owners| && 0 <= j < |owners[k].transfers| ==>
              var t, u := owners[k].transfers[j], r[k].transfers[j];
              u == t.(documentId := u.documentId) &&
              u.documentId == (if t.documentId == Some(docId) then None else t.documentId)
  {
    seq(|owners|, k requires 0 <= k < |owners| =>
      owners[k].(transfers := seq(|owners[k].transfers|, j requires 0 <= j < |owners[k].transfers| =>
        ClearDocument(owners[k].transfers[j], docId))))
  }

  predicate CitesDocument(o: Owner, docId: Id) {
    exists j :: 0 <= j < |o.transfers| && o.transfers[j].documentId == Some(docId)
  }

  function CitesDocumentFn(docId: Id): Owner -> bool {
    (o: Owner) => CitesDocument(o, docId)
  }

  function DocIdIsNot(docId: Id): Document -> bool {
    (d: Document) => d.id != docId
  }

  /** After the deletion no node cites the document any more. */
  lemma NoCitationLeft(owners: seq<Owner>, docId: Id)
    ensures forall o :: o in ClearDocumentRefs(owners, docId) ==> !CitesDocument(o, docId)
  {
  }

  // ----- interest is a function of ids, grantors and percentages -----

  /** The parts of a transfer list the interest depends on. */
  function Weights(ts: seq<Transfer>): seq<(Id, real)> {
    seq(|ts|, j requires 0 <= j < |ts| => (ts[j].fromId, ts[j].percentage))
  }

  /** Position by position the same ids and the same grantors and percentages. */
  ghost predicate SameWeights(a: seq<Owner>, b: seq<Owner>) {
    |a| == |b| && forall k :: 0 <= k < |a| ==> a[k].id == b[k].id && Weights(a[k].transfers) == Weights(b[k].transfers)
  }

  lemma {:induction false} FindSameWeights(a: seq<Owner>, b: seq<Owner>, id: Id)
    requires SameWeights(a, b)
    ensures IdSet(a) == IdSet(b)
    ensures Find(a, id).Some? <==> Find(b, id).Some?
    ensures Find(a, id).Some? ==> Weights(Find(a, id).value.transfers) == Weights(Find(b, id).value.transfers)
  {
    if a != [] {
      SameWeightsTail(a, b);
      FindSameWeights(a[1..], b[1..], id);
      IdSetCons(a);
      IdSetCons(b);
    }
  }

  lemma SameWeightsTail(a: seq<Owner>, b: seq<Owner>)
    requires SameWeights(a, b) && a != []
    ensures SameWeights(a[1..], b[1..]) && a[0].id == b[0].id
  {
    forall k | 0 <= k < |a[1..]|
      ensures a[1..][k].id == b[1..][k].id && Weights(a[1..][k].transfers) == Weights(b[1..][k].transfers)
    {
      assert a[1..][k] == a[k + 1] && b[1..][k] == b[k + 1];
    }
  }

  lemma IdSetCons(a: seq<Owner>)
    requires a != []
    ensures IdSet(a) == {a[0].id} + IdSet(a[1..])
  {
    assert a == [a[0]] + a[1..];
  }

  lemma WeightsPrefix(ts: seq<Transfer>, n: nat)
    requires n <= |ts|
    ensures Weights(ts[..n]) == Weights(ts)[..n]
  {
  }

  /** Two collections with the same weights give every node the same interest. */
  lemma {:induction false} TotalsAgree(a: seq<Owner>, b: seq<Owner>, id: Id, v: set<Id>)
    requires SameWeights(a, b)
    ensures TotalFrom(a, id, v) == TotalFrom(b, id, v)
    decreases |IdSet(a) - v|, 0, 0
  {
    FindSameWeights(a, b, id);
    if id !in v && Find(a, id).Some? {
      var o, p := Find(a, id).value, Find(b, id).value;
      assert |o.transfers| == |Weights(o.transfers)|;
      assert |p.transfers| == |Weights(p.transfers)|;
      if o.transfers != [] {
        VisitShrinks(a, id, v);
        SharesAgree(a, b, o.transfers, p.transfers, v + {id});
      }
    }
  }

  lemma {:induction false} SharesAgree(a: seq<Owner>, b: seq<Owner>, ts: seq<Transfer>, us: seq<Transfer>, v: set<Id>)
    requires SameWeights(a, b) && Weights(ts) == Weights(us)
    ensures SharesFrom(a, ts, v) == SharesFrom(b, us, v)
    decreases |IdSet(a) - v|, 1, |ts|
  {
    assert |ts| == |Weights(ts)| && |us| == |Weights(us)|;
    if ts != [] {
      var n := |ts| - 1;
      assert Weights(ts)[n] == Weights(us)[n];
      assert ts[n].fromId == us[n].fromId && ts[n].percentage == us[n].percentage;
      WeightsPrefix(ts, n);
      WeightsPrefix(us, n);
      SharesAgree(a, b, ts[..n], us[..n], v);
      TotalsAgree(a, b, ts[n].fromId, v);
      assert Share(ts[n], TotalFrom(a, ts[n].fromId, v)) == Share(us[n], TotalFrom(b, us[n].fromId, v));
    }
  }

  /** Deleting a document changes nobody's interest. */
  lemma DeleteDocumentKeepsInterest(owners: seq<Owner>, docId: Id, id: Id)
    ensures TotalInterest(ClearDocumentRefs(owners, docId), id) == TotalInterest(owners, id)
  {
    var r := ClearDocumentRefs(owners, docId);
    assert SameWeights(r, owners) by {
      forall k | 0 <= k < |owners|
        ensures r[k].id == owners[k].id && Weights(r[k].transfers) == Weights(owners[k].transfers)
      {
        assert forall j :: 0 <= j < |owners[k].transfers| ==>
          Weights(r[k].transfers)[j] == Weights(owners[k].transfers)[j];
      }
    }
    TotalsAgree(r, owners, id, {});
  }

  /** An edit that does not supply transfers changes nobody's interest. */
  lemma EditKeepsInterest(owners: seq<Owner>, editingId: Id, e: EditSubmission, id: Id)
    requires e.transfers.None?
    ensures TotalInterest(UpdateNode(owners, editingId, EditWith(e)), id) == TotalInterest(owners, id)
  {
    var r := UpdateNode(owners, editingId, EditWith(e));
    assert SameWeights(r, owners) by {
      forall k | 0 <= k < |owners|
        ensures r[k].id == owners[k].id && Weights(r[k].transfers) == Weights(owners[k].transfers)
      {
      }
    }
    TotalsAgree(r, owners, id, {});
  }

  // ----- getPersonTotals -----

  datatype PersonTotal = PersonTotal(person: Option<Person>, totalInterest: real, nodes: seq<Owner>)

  /** The index of the first node of person `p`, or `|nodes|` when none is. */
  function FirstIndex(nodes: seq<Owner>, p: Id): (k: nat)
    ensures k <= |nodes|
    ensures k < |nodes| ==> nodes[k].personId == p
    ensures forall j :: 0 <= j < k ==> nodes[j].personId != p
  {
    if nodes == [] then 0
    else if nodes[0].personId == p then 0
    else
      var k := FirstIndex(nodes[1..], p);
      assert forall j :: 1 <= j <= k && j < |nodes| ==> nodes[j] == nodes[1..][j - 1];
      1 + k
  }

  /** The first node of `p` in a prefix that has one is its first node overall. */
  lemma FirstIndexOfPrefix(nodes: seq<Owner>, n: nat, p: Id)
    requires n <= |nodes|
    requires FirstIndex(nodes[..n], p) < n
    ensures FirstIndex(nodes, p) == FirstIndex(nodes[..n], p)
  {
    var k := FirstIndex(nodes[..n], p);
    assert forall i :: 0 <= i <= k ==> nodes[..n][i] == nodes[i];
  }

  /** The distinct person ids of `nodes` in order of first appearance: the key
      order of the `totals` object. */
  function PersonIdsOf(nodes: seq<Owner>): (r: seq<Id>)
    ensures forall p :: p in r <==> exists k :: 0 <= k < |nodes| && nodes[k].personId == p
    ensures forall a, b :: 0 <= a < b < |r| ==> r[a] != r[b]
  {
    if nodes == [] then []
    else
      var n := |nodes| - 1;
      var r := PersonIdsOf(nodes[..n]);
      assert forall k :: 0 <= k < n ==> nodes[..n][k] == nodes[k];
      if nodes[n].personId in r then r else r + [nodes[n].personId]
  }

  /** The keys come in the order in which their persons first appear. */
  lemma {:induction false} PersonIdsInFirstAppearanceOrder(nodes: seq<Owner>)
    ensures forall a, b :: 0 <= a < b < |PersonIdsOf(nodes)| ==>
      FirstIndex(nodes, PersonIdsOf(nodes)[a]) < FirstIndex(nodes, PersonIdsOf(nodes)[b])
  {
    if nodes != [] {
      var n := |nodes| - 1;
      var r := PersonIdsOf(nodes[..n]);
      PersonIdsInFirstAppearanceOrder(nodes[..n]);
      FirstIndicesOfPrefix(nodes, n);
      var x := nodes[n].personId;
      if x !in r {
        assert FirstIndex(nodes, x) == n by {
          assert forall k :: 0 <= k < n ==> nodes[k].personId == nodes[..n][k].personId;
        }
        assert PersonIdsOf(nodes) == r + [x];
      } else {
        assert PersonIdsOf(nodes) == r;
      }
    }
  }

  /** The persons of a prefix keep the first index they have there. */
  lemma FirstIndicesOfPrefix(nodes: seq<Owner>, n: nat)
    requires n <= |nodes|
    ensures forall a :: 0 <= a < |PersonIdsOf(nodes[..n])| ==>
      FirstIndex(nodes, PersonIdsOf(nodes[..n])[a]) == FirstIndex(nodes[..n], PersonIdsOf(nodes[..n])[a]) < n
  {
    var r := PersonIdsOf(nodes[..n]);
    forall a | 0 <= a < |r|
      ensures FirstIndex(nodes, r[a]) == FirstIndex(nodes[..n], r[a]) < n
    {
      assert r[a] in r;
      var k :| 0 <= k < n && nodes[..n][k].personId == r[a];
      FirstIndexOfPrefix(nodes, n, r[a]);
    }
  }

  function PersonIs(pid: Id): Owner -> bool {
    (o: Owner) => o.personId == pid
  }

  /** The nodes of one person, in order. */
  function NodesOf(nodes: seq<Owner>, pid: Id): seq<Owner> {
    Filter(nodes, PersonIs(pid))
  }

  /** The sum of the received interest of `nodes`. */
  function SumReceived(owners: seq<Owner>, nodes: seq<Owner>): real {
    if nodes == [] then 0.0
    else SumReceived(owners, nodes[..|nodes| - 1]) + TotalInterest(owners, nodes[|nodes| - 1].id)
  }

  /** The entry `totals[pid]` holds once `nodes` have been visited. */
  function Entry(owners: seq<Owner>, persons: seq<Person>, nodes: seq<Owner>, pid: Id): PersonTotal {
    PersonTotal(FindPerson(persons, pid), SumReceived(owners, NodesOf(nodes, pid)), NodesOf(nodes, pid))
  }

  /** What getPersonTotals returns: one entry per person holding a leaf node,
      with the person's leaf nodes and the sum of their received interest. */
  function PersonTotals(owners: seq<Owner>, persons: seq<Person>): (r: seq<PersonTotal>)
    ensures |r| == |PersonIdsOf(LeafOwners(owners))|
  {
    var leaves := LeafOwners(owners);
    var pids := PersonIdsOf(leaves);
    seq(|pids|, k requires 0 <= k < |pids| => Entry(owners, persons, leaves, pids[k]))
  }
  /** Each entry belongs to one person holding a leaf node: it lists that
      person's leaf nodes, at least one, and sums their received interest. */
  lemma PersonTotalsEntries(owners: seq<Owner>, persons: seq<Person>)
    ensures forall k :: 0 <= k < |PersonTotals(owners, persons)| ==>
      var e := PersonTotals(owners, persons)[k];
      e.nodes != [] && e.totalInterest == SumReceived(owners, e.nodes) &&
      e.person == FindPerson(persons, PersonIdsOf(LeafOwners(owners))[k]) &&
      forall i :: 0 <= i < |e.nodes| ==>
        e.nodes[i] in LeafOwners(owners) && e.nodes[i].personId == PersonIdsOf(LeafOwners(owners))[k]
  {
    var leaves := LeafOwners(owners);
    var pids := PersonIdsOf(leaves);
    var r := PersonTotals(owners, persons);
    forall k | 0 <= k < |r|
      ensures r[k].nodes != [] && r[k].totalInterest == SumReceived(owners, r[k].nodes)
      ensures r[k].person == FindPerson(persons, pids[k])
      ensures forall i :: 0 <= i < |r[k].nodes| ==> r[k].nodes[i] in leaves && r[k].nodes[i].personId == pids[k]
    {
      assert r[k] == Entry(owners, persons, leaves, pids[k]);
      assert pids[k] in pids;
      EntryOfListedPerson(owners, persons, leaves, pids[k]);
    }
  }

  /** The entry of a person with a node lists that person's nodes, at least one. */
  lemma EntryOfListedPerson(owners: seq<Owner>, persons: seq<Person>, leaves: seq<Owner>, pid: Id)
    requires exists j :: 0 <= j < |leaves| && leaves[j].personId == pid
    ensures var e := Entry(owners, persons, leaves, pid);
      e.nodes != [] && e.totalInterest == SumReceived(owners, e.nodes) && e.person == FindPerson(persons, pid) &&
      forall i :: 0 <= i < |e.nodes| ==> e.nodes[i] in leaves && e.nodes[i].personId == pid
  {
    var j :| 0 <= j < |leaves| && leaves[j].personId == pid;
    assert PersonIs(pid)(leaves[j]);
    var ns := NodesOf(leaves, pid);
    assert forall i :: 0 <= i < |ns| ==> PersonIs(pid)(ns[i]);
  }

  lemma NodesOfStep(nodes: seq<Owner>, i: nat, pid: Id)
    requires i < |nodes|
    ensures NodesOf(nodes[..i + 1], pid) ==
              NodesOf(nodes[..i], pid) + (if nodes[i].personId == pid then [nodes[i]] else [])
  {
    assert nodes[..i + 1] == nodes[..i] + [nodes[i]];
    FilterAppend(nodes[..i], [nodes[i]], PersonIs(pid));
  }

  lemma EntryStep(owners: seq<Owner>, persons: seq<Person>, nodes: seq<Owner>, i: nat, pid: Id)
    requires i < |nodes|
    ensures Entry(owners, persons, nodes[..i + 1], pid) ==
              if nodes[i].personId == pid then
                var e := Entry(owners, persons, nodes[..i], pid);
                e.(totalInterest := e.totalInterest + TotalInterest(owners, nodes[i].id), nodes := e.nodes + [nodes[i]])
              else Entry(owners, persons, nodes[..i], pid)
  {
    NodesOfStep(nodes, i, pid);
    var before := NodesOf(nodes[..i], pid);
    if nodes[i].personId == pid {
      assert (before + [nodes[i]])[..|before|] == before;
    } else {
      assert before + [] == before;
    }
  }

  /** The loop invariant of getPersonTotals after visiting `leaves[..i]`. */
  ghost predicate TotalsSoFar(owners: seq<Owner>, persons: seq<Person>, leaves: seq<Owner>, i: nat,
                              totals: map<Id, PersonTotal>, order: seq<Id>) {
    i <= |leaves| &&
    order == PersonIdsOf(leaves[..i]) &&
    (forall p :: p in totals <==> p in order) &&
    (forall p :: p in totals ==> totals[p] == Entry(owners, persons, leaves[..i], p))
  }

  /** One visit of the loop: start the person's entry if needed, then add the node. */
  lemma TotalsStep(owners: seq<Owner>, persons: seq<Person>, leaves: seq<Owner>, i: nat,
                   totals: map<Id, PersonTotal>, order: seq<Id>, e: PersonTotal, updated: PersonTotal,
                   totals': map<Id, PersonTotal>, order': seq<Id>)
    requires i < |leaves| && TotalsSoFar(owners, persons, leaves, i, totals, order)
    requires e == if leaves[i].personId in totals then totals[leaves[i].personId]
                  else PersonTotal(FindPerson(persons, leaves[i].personId), 0.0, [])
    requires order' == if leaves[i].personId in totals then order else order + [leaves[i].personId]
    requires updated == e.(totalInterest := e.totalInterest + TotalInterest(owners, leaves[i].id),
                           nodes := e.nodes + [leaves[i]])
    requires totals' == totals[leaves[i].personId := updated]
    ensures TotalsSoFar(owners, persons, leaves, i + 1, totals', order')
  {
    TotalsStepKeys(owners, persons, leaves, i, totals, order, e, updated, totals', order');
    TotalsStepEntries(owners, persons, leaves, i, totals, order, e, updated, totals', order');
  }

  /** The visit appends the person to the key order the first time it is seen. */
  lemma TotalsStepKeys(owners: seq<Owner>, persons: seq<Person>, leaves: seq<Owner>, i: nat,
                   totals: map<Id, PersonTotal>, order: seq<Id>, e: PersonTotal, updated: PersonTotal,
                   totals': map<Id, PersonTotal>, order': seq<Id>)
    requires i < |leaves| && TotalsSoFar(owners, persons, leaves, i, totals, order)
    requires e == if leaves[i].personId in totals then totals[leaves[i].personId]
                  else PersonTotal(FindPerson(persons, leaves[i].personId), 0.0, [])
    requires order' == if leaves[i].personId in totals then order else order + [leaves[i].personId]
    requires updated == e.(totalInterest := e.totalInterest + TotalInterest(owners, leaves[i].id),
                           nodes := e.nodes + [leaves[i]])
    requires totals' == totals[leaves[i].personId := updated]
    ensures order' == PersonIdsOf(leaves[..i + 1])
    ensures forall p :: p in totals' <==> p in order'
  {
    OrderStep(leaves, i, order);
    KeysStep(totals, order, leaves[i].personId, updated, totals', order');
  }

  /** The visit adds the node to its person's entry and leaves the other entries alone. */
  lemma TotalsStepEntries(owners: seq<Owner>, persons: seq<Person>, leaves: seq<Owner>, i: nat,
                   totals: map<Id, PersonTotal>, order: seq<Id>, e: PersonTotal, updated: PersonTotal,
                   totals': map<Id, PersonTotal>, order': seq<Id>)
    requires i < |leaves| && TotalsSoFar(owners, persons, leaves, i, totals, order)
    requires e == if leaves[i].personId in totals then totals[leaves[i].personId]
                  else PersonTotal(FindPerson(persons, leaves[i].personId), 0.0, [])
    requires order' == if leaves[i].personId in totals then order else order + [leaves[i].personId]
    requires updated == e.(totalInterest := e.totalInterest + TotalInterest(owners, leaves[i].id),
                           nodes := e.nodes + [leaves[i]])
    requires totals' == totals[leaves[i].personId := updated]
    ensures forall p :: p in totals' ==> totals'[p] == Entry(owners, persons, leaves[..i + 1], p)
  {
    var pid := leaves[i].personId;
    if pid !in totals {
      EntryOfAbsentPerson(owners, persons, leaves[..i], pid);
    }
    EntriesStep(owners, persons, leaves, i, totals, e, updated, totals');
  }

  /** The keys of `totals` and the key order grow together by the visited person. */
  lemma KeysStep(totals: map<Id, PersonTotal>, order: seq<Id>, pid: Id, updated: PersonTotal,
                 totals': map<Id, PersonTotal>, order': seq<Id>)
    requires forall p :: p in totals <==> p in order
    requires order' == if pid in totals then order else order + [pid]
    requires totals' == totals[pid := updated]
    ensures forall p :: p in totals' <==> p in order'
  {
    assert forall p :: p in order' <==> p in order || p == pid;
  }

  lemma OrderStep(leaves: seq<Owner>, i: nat, order: seq<Id>)
    requires i < |leaves| && order == PersonIdsOf(leaves[..i])
    ensures PersonIdsOf(leaves[..i + 1]) ==
              if leaves[i].personId in order then order else order + [leaves[i].personId]
  {
    assert leaves[..i + 1][..i] == leaves[..i];
  }

  lemma EntriesStep(owners: seq<Owner>, persons: seq<Person>, leaves: seq<Owner>, i: nat,
                    totals: map<Id, PersonTotal>, e: PersonTotal, updated: PersonTotal, totals': map<Id, PersonTotal>)
    requires i < |leaves|
    requires forall p :: p in totals ==> totals[p] == Entry(owners, persons, leaves[..i], p)
    requires e == Entry(owners, persons, leaves[..i], leaves[i].personId)
    requires updated == e.(totalInterest := e.totalInterest + TotalInterest(owners, leaves[i].id),
                           nodes := e.nodes + [leaves[i]])
    requires totals' == totals[leaves[i].personId := updated]
    ensures forall p :: p in totals' ==> totals'[p] == Entry(owners, persons, leaves[..i + 1], p)
  {
    forall p | p in totals'
      ensures totals'[p] == Entry(owners, persons, leaves[..i + 1], p)
    {
      EntryStep(owners, persons, leaves, i, p);
    }
  }

  lemma EntryOfAbsentPerson(owners: seq<Owner>, persons: seq<Person>, nodes: seq<Owner>, pid: Id)
    requires pid !in PersonIdsOf(nodes)
    ensures Entry(owners, persons, nodes, pid) == PersonTotal(FindPerson(persons, pid), 0.0, [])
  {
    FilterNone(nodes, PersonIs(pid));
  }

  /** Every leaf is listed under its own person. */
  lemma LeafListedUnderItsPerson(owners: seq<Owner>, persons: seq<Person>, o: Owner)
    requires o in LeafOwners(owners)
    ensures exists k :: 0 <= k < |PersonTotals(owners, persons)| &&
              PersonIdsOf(LeafOwners(owners))[k] == o.personId && o in PersonTotals(owners, persons)[k].nodes
  {
    var leaves := LeafOwners(owners);
    var pids := PersonIdsOf(leaves);
    var i :| 0 <= i < |leaves| && leaves[i] == o;
    assert o.personId in pids;
    var k :| 0 <= k < |pids| && pids[k] == o.personId;
    assert PersonIs(o.personId)(leaves[i]);
    assert o in NodesOf(leaves, o.personId);
    assert PersonTotals(owners, persons)[k].nodes == NodesOf(leaves, o.personId);
  }

  lemma MapOverwrite<K, V>(m: map<K, V>, k: K, a: V, b: V)
    ensures m[k := a][k := b] == m[k := b]
  {
  }

  /** `Object.values(totals)`, with `order` the key order. */
  function ObjectValues(totals: map<Id, PersonTotal>, order: seq<Id>): (r: seq<PersonTotal>)
    requires forall p :: p in order ==> p in totals
    ensures |r| == |order| && forall k :: 0 <= k < |order| ==> r[k] == totals[order[k]]
  {
    seq(|order|, k requires 0 <= k < |order| => totals[order[k]])
  }

  lemma ValuesAreTotals(owners: seq<Owner>, persons: seq<Person>, leaves: seq<Owner>,
                        totals: map<Id, PersonTotal>, order: seq<Id>)
    requires leaves == LeafOwners(owners)
    requires TotalsSoFar(owners, persons, leaves, |leaves|, totals, order)
    ensures forall p :: p in order ==> p in totals
    ensures ObjectValues(totals, order) == PersonTotals(owners, persons)
  {
    assert leaves[..|leaves|] == leaves;
  }

  // ----- the values shown on each node -----

  /** `currentOwnership`: what the node received, less the part of it conveyed away. */
  function CurrentOwnership(owners: seq<Owner>, id: Id): (r: real)
    ensures Allocated(owners, id) == 0.0 ==> r == TotalInterest(owners, id)
    ensures Allocated(owners, id) == 100.0 ==> r == 0.0
  {
    var totalReceived := TotalInterest(owners, id);
    var allocatedOut := Allocated(owners, id);
    PercentOf(totalReceived, 100.0 - allocatedOut)
  }

  /** `(total * pct) / 100`. */
  function PercentOf(total: real, pct: real): real {
    (total * pct) / 100.0
  }

  /** The amount the breakdown shows is the share the total interest adds. */
  lemma PercentOfIsShare(t: Transfer, total: real)
    ensures PercentOf(total, t.percentage) == Share(t, total)
  {
  }

  /** The current ownership is the received interest scaled by the remaining percentage. */
  lemma CurrentIsRemainingShare(owners: seq<Owner>, id: Id)
    ensures CurrentOwnership(owners, id) == PercentOf(TotalInterest(owners, id), Remaining(owners, id))
  {
  }

  datatype BreakdownRow = BreakdownRow(
    fromName: string,
    parentFraction: string,
    transferPct: real,
    transferFraction: string,
    resultFraction: string,
    resultPct: real)

  /** The grantor's total as the breakdown shows it: 100 for a missing grantor. */
  function ParentTotal(owners: seq<Owner>, t: Transfer): real {
    if Find(owners, t.fromId).Some? then TotalInterest(owners, t.fromId) else 100.0
  }

  function BreakdownOf(owners: seq<Owner>, t: Transfer): (r: BreakdownRow)
    ensures r.resultPct == PercentOf(ParentTotal(owners, t), t.percentage)
    ensures r.transferPct == t.percentage
    ensures r.parentFraction == FractionText(ParentTotal(owners, t))
    ensures r.transferFraction == FractionText(t.percentage)
    ensures r.resultFraction == FractionText(r.resultPct)
    ensures r.fromName != ""
    ensures Find(owners, t.fromId).Some? && Find(owners, t.fromId).value.name != "" ==>
              r.fromName == Find(owners, t.fromId).value.name
    ensures Find(owners, t.fromId).None? || Find(owners, t.fromId).value.name == "" ==> r.fromName == "Unknown"
  {
    var fromOwner := Find(owners, t.fromId);
    var parentTotal := ParentTotal(owners, t);
    var transferredAmount := PercentOf(parentTotal, t.percentage);
    BreakdownRow(
      if fromOwner.Some? && fromOwner.value.name != "" then fromOwner.value.name else "Unknown",
      FractionText(parentTotal),
      t.percentage,
      FractionText(t.percentage),
      FractionText(transferredAmount),
      transferredAmount)
  }

  /** `transferBreakdown`: one row per inbound transfer, in order. */
  function TransferBreakdown(owners: seq<Owner>, ts: seq<Transfer>): (r: seq<BreakdownRow>)
    ensures |r| == |ts|
    ensures forall k :: 0 <= k < |ts| ==> r[k] == BreakdownOf(owners, ts[k])
  {
    if ts == [] then []
    else
      var n := |ts| - 1;
      var rest := TransferBreakdown(owners, ts[..n]);
      var r := rest + [BreakdownOf(owners, ts[n])];
      BreakdownRowsStep(owners, ts, rest, r);
      r
  }

  /** Appending the last transfer's row keeps row k the breakdown of transfer k. */
  lemma BreakdownRowsStep(owners: seq<Owner>, ts: seq<Transfer>, rest: seq<BreakdownRow>, r: seq<BreakdownRow>)
    requires ts != [] && |rest| == |ts| - 1
    requires forall k :: 0 <= k < |ts[..|ts| - 1]| ==> rest[k] == BreakdownOf(owners, ts[..|ts| - 1][k])
    requires r == rest + [BreakdownOf(owners, ts[|ts| - 1])]
    ensures |r| == |ts|
    ensures forall k :: 0 <= k < |ts| ==> r[k] == BreakdownOf(owners, ts[k])
  {
    forall k | 0 <= k < |ts|
      ensures r[k] == BreakdownOf(owners, ts[k])
    {
      if k < |ts| - 1 {
        assert ts[..|ts| - 1][k] == ts[k];
      }
    }
  }

  function SumResults(rows: seq<BreakdownRow>): real {
    if rows == [] then 0.0 else SumResults(rows[..|rows| - 1]) + rows[|rows| - 1].resultPct
  }

  lemma {:induction false} BreakdownIsShares(owners: seq<Owner>, ts: seq<Transfer>)
    requires forall t :: t in ts ==> t.fromId in IdSet(owners)
    ensures SumResults(TransferBreakdown(owners, ts)) == SumShares(owners, ts)
  {
    if ts != [] {
      var n := |ts| - 1;
      var rows := TransferBreakdown(owners, ts);
      assert rows[..n] == TransferBreakdown(owners, ts[..n]);
      assert forall t :: t in ts[..n] ==> t in ts;
      BreakdownIsShares(owners, ts[..n]);
      assert ts[n] in ts;
      assert Find(owners, ts[n].fromId).Some?;
      PercentOfIsShare(ts[n], TotalInterest(owners, ts[n].fromId));
    }
  }

  /** When every grantor exists and there is no cycle, the breakdown's amounts
      add up to the node's received interest. */
  lemma BreakdownAddsUpToTotal(owners: seq<Owner>, id: Id)
    requires NoCycleFrom(owners, id, {})
    requires Find(owners, id).Some? && Find(owners, id).value.transfers != []
    requires forall t :: t in Find(owners, id).value.transfers ==> t.fromId in IdSet(owners)
    ensures SumResults(TransferBreakdown(owners, Find(owners, id).value.transfers)) == TotalInterest(owners, id)
  {
    TotalRecurrence(owners, id);
    BreakdownIsShares(owners, Find(owners, id).value.transfers);
  }

  /** A missing grantor counts as holding everything in the breakdown, while
      it contributes nothing to the received interest. */
  lemma BreakdownOfMissingParent(owners: seq<Owner>, t: Transfer)
    requires t.fromId !in IdSet(owners)
    ensures BreakdownOf(owners, t).resultPct == t.percentage
    ensures BreakdownOf(owners, t).fromName == "Unknown"
    ensures TotalInterest(owners, t.fromId) == 0.0
  {
  }

  // ----- the component state -----

  class Chart {
    var persons: seq<Person>
    var documents: seq<Document>
    var owners: seq<Owner>
    var nodePositions: map<Id, AutoLayout.Point>
    var addGranteeParentId: Option<Id>
    var addTransferToId: Option<Id>
    var editingId: Option<Id>
    var showAddNode: bool

    /** The state with nothing saved: the original owner alone. */
    constructor ()
      ensures persons == [InitialPerson] && documents == [] && owners == [InitialOwner] && nodePositions == map[]
      ensures addGranteeParentId.None? && addTransferToId.None? && editingId.None? && !showAddNode
    {
      persons := [InitialPerson];
      documents := [];
      owners := [InitialOwner];
      nodePositions := map[];
      addGranteeParentId := None;
      addTransferToId := None;
      editingId := None;
      showAddNode := false;
    }

    function Db(): Records
      reads this
    {
      Records(persons, documents, owners)
    }

    /** addPerson: a person with the title-cased trimmed name and no aliases. */
    method AddPerson(name: string, newId: Id) returns (id: Id)
      modifies this`persons
      ensures id == newId
      ensures persons == old(persons) + [Person(newId, ToTitleCase(Trim(name)), [])]
    {
      var formatted := ToTitleCase(Trim(name));
      persons := persons + [Person(newId, formatted, [])];
      return newId;
    }

    /** addDocument: the form's fields under a new id. */
    method AddDocument(form: DocForm, newId: Id) returns (id: Id)
      modifies this`documents
      ensures id == newId
      ensures documents == old(documents) + [Document(newId, form)]
    {
      documents := documents + [Document(newId, form)];
      return newId;
    }

    /** handleAddGrantee: open the grantee dialog for `parentId`. */
    method StartAddGrantee(parentId: Id)
      modifies this`addGranteeParentId
      ensures addGranteeParentId == Some(parentId)
    {
      addGranteeParentId := Some(parentId);
    }

    /** handleAddTransfer: open the transfer dialog for `toId`. */
    method StartAddTransfer(toId: Id)
      modifies this`addTransferToId
      ensures addTransferToId == Some(toId)
    {
      addTransferToId := Some(toId);
    }

    /** handleEdit: open the edit dialog for `ownerId`. */
    method StartEdit(ownerId: Id)
      modifies this`editingId
      ensures editingId == Some(ownerId)
    {
      editingId := Some(ownerId);
    }

    /** handleDelete: the node and every transfer from it go, and so does its saved position. */
    method Delete(ownerId: Id)
      modifies this`owners, this`nodePositions
      ensures owners == DeleteOwner(old(owners), ownerId)
      ensures nodePositions == old(nodePositions) - {ownerId}
    {
      var current := owners;
      var updated := seq(|current|, k requires 0 <= k < |current| => StripTransfersFrom(current[k], ownerId));
      owners := Filter(updated, IdIsNot(ownerId));
      nodePositions := nodePositions - {ownerId};
    }

    /** handleDeleteDocument: the document goes and every citation of it becomes null. */
    method DeleteDocument(docId: Id)
      modifies this`documents, this`owners
      ensures documents == Filter(old(documents), DocIdIsNot(docId))
      ensures forall d :: d in documents <==> d in old(documents) && d.id != docId
      ensures owners == ClearDocumentRefs(old(owners), docId)
    {
      documents := Filter(documents, DocIdIsNot(docId));
      owners := ClearDocumentRefs(owners, docId);
    }

    /** The percentage checks of both transfer dialogs, with the alert text. */
    method ValidatePercentage(text: string, remaining: real) returns (check: Checked)
      ensures check == CheckPercentage(text, remaining)
    {
      var pct := ParsePercentageInput(text);
      if pct.None? {
        return Refused("Invalid percentage");
      }
      if pct.value <= 0.0 || pct.value > remaining + Tolerance {
        var shown := FormatFraction(remaining);
        return Refused("Percentage must be between 0 and " + shown);
      }
      return Accepted(pct.value);
    }

    /** The person a submission names: a new person for "new", else the selected one. */
    method ResolvePerson(selectedPersonId: Id, formatted: string, newPersonId: Id) returns (personId: Id)
      modifies this`persons
      ensures personId == if selectedPersonId == "new" then newPersonId else selectedPersonId
      ensures persons == old(persons) + CreatedPersons(selectedPersonId, formatted, newPersonId)
    {
      personId := selectedPersonId;
      if selectedPersonId == "new" {
        personId := AddPerson(formatted, newPersonId);
      }
    }

    /** The document a submitted transfer cites, created when "new" is chosen with a filled-in form. */
    method ResolveDocument(selected: Option<Id>, form: DocForm, newDocId: Id) returns (docId: Option<Id>)
      modifies this`documents
      ensures docId == ResolvedDocId(selected, form, newDocId)
      ensures documents == old(documents) + CreatedDocuments(selected, form, newDocId)
    {
      docId := selected;
      if selected == Some("new") && HasDocFields(form) {
        var id := AddDocument(form, newDocId);
        docId := Some(id);
      } else if selected == Some("new") {
        docId := None;
      }
    }

    /** The source document of a standalone node, created when asked for. */
    method ResolveSourceDocument(form: NodeForm, newDocId: Id) returns (sourceDocumentId: Option<Id>)
      modifies this`documents
      ensures sourceDocumentId == SourceDocument(form, newDocId)
      ensures documents == old(documents) + StandaloneDocuments(form, newDocId)
    {
      sourceDocumentId := None;
      if form.selectedDocumentId == Some("new") && form.newDocForm.Some? && HasDocFields(form.newDocForm.value) {
        var id := AddDocument(form.newDocForm.value, newDocId);
        sourceDocumentId := Some(id);
      } else if form.selectedDocumentId.Some? && form.selectedDocumentId.value != "" &&
                form.selectedDocumentId.value != "none" && form.selectedDocumentId.value != "new" {
        sourceDocumentId := form.selectedDocumentId;
      }
    }

    /** handleSubmitGrantee. */
    method SubmitGrantee(form: GranteeForm, newPersonId: Id, newDocId: Id, newNodeId: Id) returns (outcome: Outcome)
      requires addGranteeParentId.Some? && ExistingNode(owners, GranteePerson(form, newPersonId)).None? ==>
                 ChainEnds(owners, addGranteeParentId.value, {})
      modifies this`persons, this`documents, this`owners, this`addGranteeParentId
      ensures GranteeIgnored(old(addGranteeParentId), form) ==> outcome == Ignored
      ensures outcome != Applied ==> Db() == old(Db()) && addGranteeParentId == old(addGranteeParentId)
      ensures !GranteeIgnored(old(addGranteeParentId), form) ==>
                var parentId := old(addGranteeParentId).value;
                var check := CheckPercentage(form.percentage, Remaining(old(owners), parentId));
                (check.Refused? ==> outcome == Alerted(check.message)) &&
                (check.Accepted? ==>
                   outcome == Applied &&
                   Db() == AddGrantee(old(Db()), parentId, form, check.pct, newPersonId, newDocId, newNodeId) &&
                   addGranteeParentId.None?)
    {
      if addGranteeParentId.None? || form.percentage == "" {
        return Ignored;
      }
      if form.selectedPersonId == "new" && Trim(form.newGranteeName) == "" {
        return Ignored;
      }
      var parentId := addGranteeParentId.value;
      var check := ValidatePercentage(form.percentage, Remaining(owners, parentId));
      if check.Refused? {
        return Alerted(check.message);
      }
      ApplyGrantee(parentId, form, check.pct, newPersonId, newDocId, newNodeId);
      return Applied;
    }

    /** The state changes of an accepted grantee submission. */
    method ApplyGrantee(parentId: Id, form: GranteeForm, pct: real, newPersonId: Id, newDocId: Id, newNodeId: Id)
      requires ExistingNode(owners, GranteePerson(form, newPersonId)).None? ==> ChainEnds(owners, parentId, {})
      modifies this`persons, this`documents, this`owners, this`addGranteeParentId
      ensures Db() == AddGrantee(old(Db()), parentId, form, pct, newPersonId, newDocId, newNodeId)
      ensures addGranteeParentId.None?
    {
      ghost var db := Db();
      var knownPersons := persons;
      var personId, t := ResolveGrantee(parentId, form, pct, newPersonId, newDocId);
      owners := PlaceGrantee(owners, knownPersons, parentId, form, personId, t, newNodeId);
      addGranteeParentId := None;
      AddGranteeOf(db, parentId, form, pct, newPersonId, newDocId, newNodeId, personId, t, persons, documents, owners);
    }

    /** The grantee's person and the transfer to it, creating the person and the document when asked for. */
    method ResolveGrantee(parentId: Id, form: GranteeForm, pct: real, newPersonId: Id, newDocId: Id)
      returns (personId: Id, t: Transfer)
      modifies this`persons, this`documents
      ensures personId == GranteePerson(form, newPersonId)
      ensures t == Transfer(parentId, pct, ResolvedDocId(form.selectedDocumentId, form.newDocForm, newDocId), None)
      ensures persons == old(persons) + CreatedPersons(form.selectedPersonId, ToTitleCase(Trim(form.newGranteeName)), newPersonId)
      ensures documents == old(documents) + CreatedDocuments(form.selectedDocumentId, form.newDocForm, newDocId)
    {
      var formatted := ToTitleCase(Trim(form.newGranteeName));
      personId := ResolvePerson(form.selectedPersonId, formatted, newPersonId);
      var docId := ResolveDocument(form.selectedDocumentId, form.newDocForm, newDocId);
      t := Transfer(parentId, pct, docId, None);
    }

    /** Merge the transfer into the person's existing node, or add a node for it. */
    static method PlaceGrantee(before: seq<Owner>, knownPersons: seq<Person>, parentId: Id, form: GranteeForm,
                               personId: Id, t: Transfer, newNodeId: Id) returns (after: seq<Owner>)
      requires ExistingNode(before, personId).None? ==> ChainEnds(before, parentId, {})
      ensures after == GranteeOwners(before, knownPersons, parentId, form, personId, t, newNodeId)
    {
      GranteeOwnersCases(before, knownPersons, parentId, form, personId, t, newNodeId);
      var existingNode := ExistingNode(before, personId);
      if existingNode.Some? {
        after := UpdateNode(before, existingNode.value.id, MergeWith(t, form));
      } else {
        after := before + [GranteeNode(knownPersons, form, personId, t, newNodeId, NodeLevel(before, parentId) + 1)];
      }
    }

    /** handleSubmitTransfer: an extra inbound transfer for the node the dialog was opened on. */
    method SubmitTransfer(fromId: Id, percentage: string, documentId: Option<Id>, newDocForm: DocForm, newDocId: Id)
      returns (outcome: Outcome)
      modifies this`documents, this`owners, this`addTransferToId
      ensures old(addTransferToId).None? || fromId == "" || percentage == "" ==> outcome == Ignored
      ensures outcome != Applied ==> Db() == old(Db()) && addTransferToId == old(addTransferToId)
      ensures !(old(addTransferToId).None? || fromId == "" || percentage == "") ==>
                var check := CheckPercentage(percentage, Remaining(old(owners), fromId));
                (check.Refused? ==> outcome == Alerted(check.message)) &&
                (check.Accepted? ==>
                   outcome == Applied &&
                   Db() == AddSourceTransfer(old(Db()), old(addTransferToId).value, fromId, check.pct,
                                             documentId, newDocForm, newDocId) &&
                   addTransferToId.None?)
    {
      if addTransferToId.None? || fromId == "" || percentage == "" {
        return Ignored;
      }
      var toId := addTransferToId.value;
      var check := ValidatePercentage(percentage, Remaining(owners, fromId));
      if check.Refused? {
        return Alerted(check.message);
      }
      ApplySourceTransfer(toId, fromId, check.pct, documentId, newDocForm, newDocId);
      return Applied;
    }

    /** The state changes of an accepted extra source transfer. */
    method ApplySourceTransfer(toId: Id, fromId: Id, pct: real, documentId: Option<Id>, newDocForm: DocForm,
                               newDocId: Id)
      modifies this`documents, this`owners, this`addTransferToId
      ensures Db() == AddSourceTransfer(old(Db()), toId, fromId, pct, documentId, newDocForm, newDocId)
      ensures addTransferToId.None?
    {
      var docId := ResolveDocument(documentId, newDocForm, newDocId);
      var t := Transfer(fromId, pct, docId, None);
      owners := UpdateNode(owners, toId, AppendTransfer(t));
      addTransferToId := None;
    }

    /** handleSubmitEdit: the node being edited takes the form's values. */
    method SubmitEdit(e: EditSubmission)
      modifies this`owners, this`editingId
      ensures old(editingId).None? ==> owners == old(owners)
      ensures old(editingId).Some? ==> owners == UpdateNode(old(owners), old(editingId).value, EditWith(e))
      ensures editingId.None?
    {
      if editingId.Some? {
        owners := UpdateNode(owners, editingId.value, EditWith(e));
      }
      editingId := None;
    }

    /** handleSubmitAddNode: a standalone root node. */
    method SubmitAddNode(form: NodeForm, newPersonId: Id, newDocId: Id, newNodeId: Id)
      modifies this`persons, this`documents, this`owners, this`showAddNode
      ensures Db() == AddStandalone(old(Db()), form, newPersonId, newDocId, newNodeId)
      ensures !showAddNode
    {
      PlaceStandalone(form, newPersonId, newDocId, newNodeId);
      showAddNode := false;
    }

    /** The records update of handleSubmitAddNode: person, document and node appended. */
    method PlaceStandalone(form: NodeForm, newPersonId: Id, newDocId: Id, newNodeId: Id)
      modifies this`persons, this`documents, this`owners
      ensures Db() == AddStandalone(old(Db()), form, newPersonId, newDocId, newNodeId)
    {
      var newNode := ResolveStandalone(form, newPersonId, newDocId, newNodeId);
      owners := owners + [newNode];
      AddStandaloneOf(old(Db()), form, newPersonId, newDocId, newNodeId, persons, documents, owners);
    }

    /** The standalone node, creating its person and its source document when asked for. */
    method ResolveStandalone(form: NodeForm, newPersonId: Id, newDocId: Id, newNodeId: Id) returns (newNode: Owner)
      modifies this`persons, this`documents
      ensures newNode == StandaloneNode(old(persons), form, newPersonId, newDocId, newNodeId)
      ensures persons == old(persons) + CreatedPersons(form.selectedPersonId, ToTitleCase(Trim(form.newName)), newPersonId)
      ensures documents == old(documents) + StandaloneDocuments(form, newDocId)
    {
      var formatted := ToTitleCase(Trim(form.newName));
      var knownPersons := persons;
      var personId := ResolvePerson(form.selectedPersonId, formatted, newPersonId);
      var sourceDocumentId := ResolveSourceDocument(form, newDocId);
      newNode := BuildStandalone(knownPersons, form, personId, sourceDocumentId, newPersonId, newDocId, newNodeId);
    }

    /** The node `handleSubmitAddNode` appends, from the resolved person and document. */
    static method BuildStandalone(knownPersons: seq<Person>, form: NodeForm, personId: Id, sourceDocumentId: Option<Id>,
                                  newPersonId: Id, newDocId: Id, newNodeId: Id) returns (newNode: Owner)
      requires personId == if form.selectedPersonId == "new" then newPersonId else form.selectedPersonId
      requires sourceDocumentId == SourceDocument(form, newDocId)
      ensures newNode == StandaloneNode(knownPersons, form, newPersonId, newDocId, newNodeId)
    {
      var formatted := ToTitleCase(Trim(form.newName));
      var personName := if form.selectedPersonId == "new" then formatted else KnownName(knownPersons, personId);
      newNode := Owner(newNodeId, personName, personName, personId, form.notes, [], Some(0),
                       OrElse(form.fillColor, None), OrElse(form.borderColor, None), OrElse(form.lineColor, None),
                       "", sourceDocumentId);
    }

    /** getDocumentGrantees: the nodes with a transfer citing the document, in order. */
    function DocumentGrantees(docId: Id): (r: seq<Owner>)
      reads this
      ensures forall o :: o in r <==> o in owners && CitesDocument(o, docId)
      ensures SubsequenceOf(r, owners)
    {
      Filter(owners, CitesDocumentFn(docId))
    }

    /** getPersonTotals, with the `totals` object as a map and its key order kept beside it. */
    method GetPersonTotals() returns (r: seq<PersonTotal>)
      ensures r == PersonTotals(owners, persons)
    {
      var leaves := LeafOwners(owners);
      var totals: map<Id, PersonTotal> := map[];
      var order: seq<Id> := [];
      for i := 0 to |leaves|
        invariant TotalsSoFar(owners, persons, leaves, i, totals, order)
      {
        totals, order := AddLeaf(leaves, i, totals, order);
      }
      r := ObjectValues(totals, order);
      ValuesAreTotals(owners, persons, leaves, totals, order);
    }

    /** One pass of the loop of getPersonTotals. */
    method AddLeaf(leaves: seq<Owner>, i: nat, totals0: map<Id, PersonTotal>, order0: seq<Id>)
      returns (totals: map<Id, PersonTotal>, order: seq<Id>)
      requires i < |leaves| && TotalsSoFar(owners, persons, leaves, i, totals0, order0)
      ensures TotalsSoFar(owners, persons, leaves, i + 1, totals, order)
    {
      totals, order := totals0, order0;
      var owner := leaves[i];
      var pid := owner.personId;
      if pid !in totals {
        totals := totals[pid := PersonTotal(FindPerson(persons, pid), 0.0, [])];
        order := order + [pid];
      }
      var received := CalculateTotalPercentage(owners, owner.id, {});
      var entry := totals[pid];
      var updated := entry.(totalInterest := entry.totalInterest + received, nodes := entry.nodes + [owner]);
      totals := totals[pid := updated];
      if pid !in totals0 {
        MapOverwrite(totals0, pid, entry, updated);
      }
      TotalsStep(owners, persons, leaves, i, totals0, order0, entry, updated, totals, order);
    }
  }
}
