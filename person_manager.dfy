/**
 * The person registry (`PersonManagerModal`): it lists every person with the
 * number of nodes that belong to them, and edits a person's primary name
 * and comma-separated aliases. Saving goes through `handleUpdatePerson`,
 * which merges the new name and aliases into the person with that id.
 */
module PersonManager {
  import opened Text
  import opened Seqs
  import opened Ownership
  import opened Formatters
  import FlowChart

  /** The fields `handleSave` passes to `onUpdatePerson`. */
  datatype PersonUpdate = PersonUpdate(primaryName: string, aliases: seq<string>)

  function TrimAll(xs: seq<string>): (r: seq<string>)
    ensures |r| == |xs| && forall i :: 0 <= i < |xs| ==> r[i] == Trim(xs[i])
  {
    if xs == [] then [] else [Trim(xs[0])] + TrimAll(xs[1..])
  }

  predicate NonEmpty(a: string) { a != "" }

  /** An alias as the registry stores it: non-empty, trimmed and free of commas. */
  predicate IsAlias(a: string) { a != "" && IsTrimmed(a) && ',' !in a }

  /** `text.split(',').map(a => a.trim()).filter(a => a)`. */
  function ParseAliases(text: string): (r: seq<string>)
    ensures forall i :: 0 <= i < |r| ==> IsAlias(r[i])
    ensures SubsequenceOf(r, TrimAll(Split(text, ',')))
    ensures forall x {:trigger multiset(r)[x]} ::
      multiset(r)[x] == if x == "" then 0 else multiset(TrimAll(Split(text, ',')))[x]
    ensures ',' !in text ==> r == (if Trim(text) == "" then [] else [Trim(text)])
  {
    var r := Filter(TrimAll(Split(text, ',')), NonEmpty);
    PiecesAreAliases(text);
    if ',' !in text then
      SplitNoSeparator(text, ',');
      assert TrimAll(Split(text, ',')) == [Trim(text)];
      r
    else r
  }

  /** The kept pieces are non-empty and trimmed, and a piece between commas has no comma. */
  lemma PiecesAreAliases(text: string)
    ensures forall i :: 0 <= i < |Filter(TrimAll(Split(text, ',')), NonEmpty)| ==>
      IsAlias(Filter(TrimAll(Split(text, ',')), NonEmpty)[i])
  {
    var trimmed := TrimAll(Split(text, ','));
    TrimmedPiecesHaveNoComma(Split(text, ','));
    var r := Filter(trimmed, NonEmpty);
    assert forall i :: 0 <= i < |r| ==> r[i] in trimmed && r[i] != "";
  }

  /** Trimmed comma-free pieces stay comma-free. */
  lemma TrimmedPiecesHaveNoComma(pieces: seq<string>)
    requires forall i :: 0 <= i < |pieces| ==> ',' !in pieces[i]
    ensures forall x :: x in TrimAll(pieces) ==> IsTrimmed(x) && ',' !in x
  {
    var trimmed := TrimAll(pieces);
    forall x | x in trimmed
      ensures IsTrimmed(x) && ',' !in x
    {
      var j :| 0 <= j < |trimmed| && trimmed[j] == x;
      TrimKeepsNoComma(pieces[j]);
    }
  }

  /** Trimming removes characters and adds none. */
  lemma TrimKeepsNoComma(s: string)
    requires ',' !in s
    ensures ',' !in Trim(s)
  {
    var t := TrimStart(s);
    assert t == s[|s| - |t|..];
    var r := TrimEnd(t);
    assert r == t[..|r|];
  }

  /** `aliases.join(', ')`, the text an edit starts from. */
  function AliasText(aliases: seq<string>): string {
    Join(aliases, ", ")
  }

  /** The pieces of `w + Join(xs, ", ")` between commas: each alias, the
      first behind `w` and the others behind the space of the separator. */
  function Spaced(xs: seq<string>, w: string): (r: seq<string>)
    ensures |r| == |xs|
  {
    if xs == [] then [] else [w + xs[0]] + Spaced(xs[1..], " ")
  }

  /** Splitting a `", "`-joined list of comma-free pieces at the commas. */
  lemma {:induction false} SplitJoinedAliases(xs: seq<string>, w: string)
    requires |xs| >= 1
    requires forall i :: 0 <= i < |xs| ==> ',' !in xs[i]
    requires ',' !in w
    ensures Split(w + Join(xs, ", "), ',') == Spaced(xs, w)
  {
    NoCommaConcat(w, xs[0]);
    if |xs| == 1 {
      assert w + Join(xs, ", ") == w + xs[0];
      SplitNoSeparator(w + xs[0], ',');
    } else {
      JoinFirst(xs, w);
      SplitAfterPiece(w + xs[0], " " + Join(xs[1..], ", "), ',');
      SplitJoinedAliases(xs[1..], " ");
    }
  }

  lemma NoCommaConcat(w: string, a: string)
    requires ',' !in w && ',' !in a
    ensures ',' !in w + a
  {
    assert forall k :: 0 <= k < |w + a| ==> (w + a)[k] == (if k < |w| then w[k] else a[k - |w|]);
  }

  /** Trimming the pieces gives the aliases back. */
  lemma {:induction false} TrimSpacedAliases(xs: seq<string>, w: string)
    requires forall i :: 0 <= i < |xs| ==> IsAlias(xs[i])
    requires forall k :: 0 <= k < |w| ==> IsSpace(w[k])
    ensures TrimAll(Spaced(xs, w)) == xs
  {
    if xs != [] {
      TrimSkipsLeadingSpace(w, xs[0]);
      TrimSpacedAliases(xs[1..], " ");
      TrimAllCons(w + xs[0], Spaced(xs[1..], " "));
      assert xs == [xs[0]] + xs[1..];
    }
  }

  lemma JoinFirst(xs: seq<string>, w: string)
    requires |xs| >= 2
    ensures w + Join(xs, ", ") == (w + xs[0]) + [','] + (" " + Join(xs[1..], ", "))
  {
  }

  lemma TrimAllCons(a: string, rest: seq<string>)
    ensures TrimAll([a] + rest) == [Trim(a)] + TrimAll(rest)
  {
    assert ([a] + rest)[1..] == rest;
  }

  /** Saving the pre-filled alias text of stored aliases gives the same aliases. */
  lemma AliasRoundTrip(aliases: seq<string>)
    requires forall i :: 0 <= i < |aliases| ==> IsAlias(aliases[i])
    ensures ParseAliases(AliasText(aliases)) == aliases
  {
    if aliases == [] {
      assert ParseAliases(AliasText(aliases)) == [];
    } else {
      SplitJoinedAliases(aliases, "");
      TrimSpacedAliases(aliases, "");
      assert "" + Join(aliases, ", ") == Join(aliases, ", ");
      FilterAll(aliases, NonEmpty);
    }
  }

  /** The update `handleSave` builds from the two text fields. */
  function UpdateOf(editName: string, editAliases: string): (r: PersonUpdate)
    ensures r.primaryName == ToTitleCase(Trim(editName))
    ensures r.aliases == ParseAliases(editAliases)
  {
    PersonUpdate(ToTitleCase(Trim(editName)), ParseAliases(editAliases))
  }

  /** Saving a person without typing anything keeps the person's name and
      aliases, once they are in the form the registry stores them in. */
  lemma SaveUnchangedKeepsPerson(p: Person)
    requires ToTitleCase(Trim(p.primaryName)) == p.primaryName
    requires forall i :: 0 <= i < |p.aliases| ==> IsAlias(p.aliases[i])
    ensures UpdateOf(p.primaryName, AliasText(p.aliases)) == PersonUpdate(p.primaryName, p.aliases)
  {
    AliasRoundTrip(p.aliases);
  }

  /** handleUpdatePerson: the person with that id gets the new name and aliases. */
  function UpdatePersons(persons: seq<Person>, id: Option<Id>, u: PersonUpdate): (r: seq<Person>)
    ensures |r| == |persons|
    ensures forall i :: 0 <= i < |persons| ==> r[i].id == persons[i].id
    ensures forall i :: 0 <= i < |persons| && Some(persons[i].id) != id ==> r[i] == persons[i]
    ensures forall i :: 0 <= i < |persons| && Some(persons[i].id) == id ==>
      r[i].primaryName == u.primaryName && r[i].aliases == u.aliases
  {
    seq(|persons|, i requires 0 <= i < |persons| =>
      if Some(persons[i].id) == id then persons[i].(primaryName := u.primaryName, aliases := u.aliases) else persons[i])
  }

  /** `owners.filter(o => o.personId === person.id).length`. */
  function NodeCount(owners: seq<Owner>, personId: Id): (r: nat)
    ensures r <= |owners|
  {
    |FlowChart.NodesOf(owners, personId)|
  }

  /** A node adds one to its own person's count and nothing to the others'. */
  lemma NodeCountAppend(owners: seq<Owner>, o: Owner, personId: Id)
    ensures NodeCount(owners + [o], personId) == NodeCount(owners, personId) + (if o.personId == personId then 1 else 0)
  {
    FilterAppend(owners, [o], FlowChart.PersonIs(personId));
  }

  /** The count is zero exactly when no node belongs to the person. */
  lemma NodeCountZero(owners: seq<Owner>, personId: Id)
    ensures NodeCount(owners, personId) == 0 <==> forall i :: 0 <= i < |owners| ==> owners[i].personId != personId
  {
    if forall i :: 0 <= i < |owners| ==> owners[i].personId != personId {
      FilterNone(owners, FlowChart.PersonIs(personId));
    } else {
      var i :| 0 <= i < |owners| && owners[i].personId == personId;
      assert FlowChart.PersonIs(personId)(owners[i]);
      assert owners[i] in FlowChart.NodesOf(owners, personId);
    }
  }

  /** The registry's editing state. */
  class Registry {
    var editingId: Option<Id>
    var editName: string
    var editAliases: string

    constructor()
      ensures editingId.None? && editName == "" && editAliases == ""
    {
      editingId, editName, editAliases := None, "", "";
    }

    /** handleStartEdit: the name and the aliases joined by `", "`. */
    method StartEdit(person: Person)
      modifies this
      ensures editingId == Some(person.id)
      ensures editName == person.primaryName
      ensures editAliases == AliasText(person.aliases)
    {
      editingId := Some(person.id);
      editName := person.primaryName;
      editAliases := AliasText(person.aliases);
    }

    /** handleSave, together with the `handleUpdatePerson` it calls. */
    method Save(persons: seq<Person>) returns (updated: seq<Person>)
      modifies this`editingId
      ensures updated == UpdatePersons(persons, old(editingId), UpdateOf(editName, editAliases))
      ensures editingId.None?
    {
      updated := UpdatePersons(persons, editingId, UpdateOf(editName, editAliases));
      editingId := None;
    }

    /** The Cancel button: leaves the edit and updates nobody. */
    method Cancel()
      modifies this`editingId
      ensures editingId.None?
    {
      editingId := None;
    }
  }
}
