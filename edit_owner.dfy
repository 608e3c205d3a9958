/**
 * The node editor (`EditOwnerModal`): it loads a node into a form, lets the
 * user retype the percentage of each inbound transfer, pick its document,
 * set or reset its line colour and delete a transfer, and on submit parses
 * every percentage and hands the cleaned transfers to `handleSubmitEdit`.
 */
module EditOwner {
  import opened Text
  import opened Ownership
  import opened Formatters
  import FlowChart

  /** A transfer as the form holds it: the stored transfer and the text typed
      into its percentage field, `None` until the user types there. */
  datatype FormTransfer = FormTransfer(transfer: Transfer, percentageInput: Option<string>)

  /** What submitting the form does: an alert, or the submission passed on. */
  datatype Submission = Invalid(message: string) | Submitted(edit: FlowChart.EditSubmission)

  const InvalidPercentageMessage := "Invalid percentage value in one or more transfers"
  const LastTransferMessage := "Cannot delete the last transfer. Delete the node instead."

  /** A nullable text field as the form holds it: `""` for `null`. */
  function OrBlank(v: Option<string>): (r: string)
    ensures r == "" <==> v.None? || v == Some("")
    ensures r != "" ==> v == Some(r)
  {
    if v.Some? then v.value else ""
  }

  /** `value || null`. */
  function NullIfBlank(v: Option<string>): (r: Option<string>)
    ensures r.None? <==> v.None? || v == Some("")
    ensures r.Some? ==> r == v
  {
    if v == Some("") then None else v
  }

  /** `parseFloat` of the typed text, or of the stored number when nothing was typed. */
  function Effective(t: FormTransfer): Option<real> {
    match t.percentageInput
    case Some(text) => ParseFloat(text)
    case None => Some(t.transfer.percentage)
  }

  /** The percentage parses and is positive. */
  predicate Acceptable(t: FormTransfer) {
    Effective(t).Some? && Effective(t).value > 0.0
  }

  /** The transfer passed on: grantor, parsed percentage, and the document and
      line colour with blanks turned into `null`. */
  function Cleaned(t: FormTransfer, pct: real): (r: Transfer)
    ensures r.fromId == t.transfer.fromId && r.percentage == pct
    ensures r.documentId.None? <==> t.transfer.documentId.None? || t.transfer.documentId == Some("")
    ensures r.edgeColor.None? <==> t.transfer.edgeColor.None? || t.transfer.edgeColor == Some("")
    ensures t.transfer.documentId != Some("") ==> r.documentId == t.transfer.documentId
    ensures t.transfer.edgeColor != Some("") ==> r.edgeColor == t.transfer.edgeColor
  {
    Transfer(t.transfer.fromId, pct, NullIfBlank(t.transfer.documentId), NullIfBlank(t.transfer.edgeColor))
  }

  /** The parse-and-clean step of `handleSubmit`: `None` when any percentage
      is rejected, otherwise every transfer cleaned, in order. */
  function CleanTransfers(ts: seq<FormTransfer>): (r: Option<seq<Transfer>>)
    ensures r.None? <==> exists k :: 0 <= k < |ts| && !Acceptable(ts[k])
    ensures r.Some? ==> |r.value| == |ts|
    ensures r.Some? ==> forall k :: 0 <= k < |ts| ==>
      Acceptable(ts[k]) && r.value[k] == Cleaned(ts[k], Effective(ts[k]).value)
  {
    if ts == [] then Some([])
    else
      var rest := CleanTransfers(ts[1..]);
      assert forall k :: 1 <= k < |ts| ==> ts[k] == ts[1..][k - 1];
      if !Acceptable(ts[0]) || rest.None? then None
      else Some([Cleaned(ts[0], Effective(ts[0]).value)] + rest.value)
  }

  /** `prev.filter((_, i) => i !== index)`. */
  function DropIndex<T>(s: seq<T>, index: int): (r: seq<T>)
    ensures 0 <= index < |s| ==> r == s[..index] + s[index + 1..]
    ensures !(0 <= index < |s|) ==> r == s
  {
    if s == [] then []
    else
      var rest := DropIndex(s[1..], index - 1);
      if index == 0 then
        rest
      else
        assert 0 <= index < |s| ==> s[..index] == [s[0]] + s[1..][..index - 1];
        [s[0]] + rest
  }

  /** The stored transfers as the form first holds them, nothing typed yet. */
  function Untyped(ts: seq<Transfer>): (r: seq<FormTransfer>)
    ensures |r| == |ts| && forall k :: 0 <= k < |ts| ==> r[k] == FormTransfer(ts[k], None)
  {
    seq(|ts|, k requires 0 <= k < |ts| => FormTransfer(ts[k], None))
  }

  /** The form's fields. */
  datatype Fields = Fields(
    name: string,
    nameAsWritten: string,
    notes: string,
    personId: Id,
    transfers: seq<FormTransfer>,
    fillColor: string,
    borderColor: string,
    lineColor: string,
    relationship: string)

  /** The form filled from a node: the name as written defaults to the display
      name, blank colours stay blank, and every transfer starts untyped. */
  function Loaded(owner: Owner): (r: Fields)
    ensures |r.transfers| == |owner.transfers|
    ensures forall k :: 0 <= k < |owner.transfers| ==> r.transfers[k] == FormTransfer(owner.transfers[k], None)
    ensures r.name == owner.name && r.notes == owner.notes && r.personId == owner.personId
    ensures r.relationship == owner.relationship
    ensures owner.nameAsWritten != "" ==> r.nameAsWritten == owner.nameAsWritten
    ensures owner.nameAsWritten == "" ==> r.nameAsWritten == owner.name
    ensures r.fillColor == OrBlank(owner.color) && r.borderColor == OrBlank(owner.borderColor)
    ensures r.lineColor == OrBlank(owner.lineColor)
  {
    Fields(owner.name,
           if owner.nameAsWritten != "" then owner.nameAsWritten else owner.name,
           owner.notes,
           owner.personId,
           Untyped(owner.transfers),
           OrBlank(owner.color),
           OrBlank(owner.borderColor),
           OrBlank(owner.lineColor),
           owner.relationship)
  }

  /** `handleSubmit`: an alert when any percentage is rejected, otherwise the
      form's fields with the cleaned transfers. */
  function SubmissionOf(f: Fields): (r: Submission)
    ensures r.Invalid? <==> exists k :: 0 <= k < |f.transfers| && !Acceptable(f.transfers[k])
    ensures r.Invalid? ==> r.message == InvalidPercentageMessage
    ensures r.Submitted? ==> r.edit.transfers.Some? && |r.edit.transfers.value| == |f.transfers|
    ensures r.Submitted? ==> r.edit.name == f.name && r.edit.nameAsWritten == f.nameAsWritten &&
                             r.edit.personId == f.personId && r.edit.fillColor == f.fillColor
    ensures r.Submitted? ==> r.edit.notes == f.notes && r.edit.borderColor == f.borderColor &&
                             r.edit.lineColor == f.lineColor && r.edit.relationship == f.relationship
    ensures r.Submitted? ==> CleanTransfers(f.transfers) == r.edit.transfers
  {
    match CleanTransfers(f.transfers)
    case None => Invalid(InvalidPercentageMessage)
    case Some(cleaned) =>
      Submitted(FlowChart.EditSubmission(f.name, f.nameAsWritten, f.notes, f.personId, Some(cleaned),
                                         f.fillColor, f.borderColor, f.lineColor, f.relationship))
  }

  /** Stored transfers with positive percentages and no blank document or
      colour come back unchanged from a submit nobody typed into. */
  lemma {:induction false} UntouchedTransfersSurvive(ts: seq<Transfer>)
    requires forall k :: 0 <= k < |ts| ==> ts[k].percentage > 0.0
    requires forall k :: 0 <= k < |ts| ==> ts[k].documentId != Some("") && ts[k].edgeColor != Some("")
    ensures CleanTransfers(Untyped(ts)) == Some(ts)
  {
    var form := Untyped(ts);
    forall k | 0 <= k < |ts|
      ensures Acceptable(form[k])
    {
    }
    var r := CleanTransfers(form);
    assert r.Some?;
    assert |r.value| == |ts|;
    forall k | 0 <= k < |ts|
      ensures r.value[k] == ts[k]
    {
      assert r.value[k] == Cleaned(form[k], ts[k].percentage);
      assert NullIfBlank(ts[k].documentId) == ts[k].documentId;
      assert NullIfBlank(ts[k].edgeColor) == ts[k].edgeColor;
    }
    assert r.value == ts;
  }

  /** Opening the editor on a node and saving without touching anything
      leaves the node as it was, except that its name is trimmed and
      title-cased, once its blank fields are in the form the editor writes. */
  lemma SaveWithoutChangesKeepsNode(owner: Owner)
    requires owner.nameAsWritten != ""
    requires owner.color != Some("") && owner.borderColor != Some("") && owner.lineColor != Some("")
    requires forall k :: 0 <= k < |owner.transfers| ==> owner.transfers[k].percentage > 0.0
    requires forall k :: 0 <= k < |owner.transfers| ==>
      owner.transfers[k].documentId != Some("") && owner.transfers[k].edgeColor != Some("")
    ensures match SubmissionOf(Loaded(owner))
      case Submitted(edit) => FlowChart.ApplyEdit(owner, edit) == owner.(name := ToTitleCase(Trim(owner.name)))
      case Invalid(_) => false
  {
    var f := Loaded(owner);
    UntouchedTransfersSurvive(owner.transfers);
    assert CleanTransfers(f.transfers) == Some(owner.transfers);
    var edit := FlowChart.EditSubmission(f.name, f.nameAsWritten, f.notes, f.personId, Some(owner.transfers),
                                         f.fillColor, f.borderColor, f.lineColor, f.relationship);
    assert SubmissionOf(f) == Submitted(edit);
    BlankRoundTrip(owner.color);
    BlankRoundTrip(owner.borderColor);
    BlankRoundTrip(owner.lineColor);
  }

  /** A colour the editor did not blank survives the trip through the form. */
  lemma BlankRoundTrip(c: Option<string>)
    requires c != Some("")
    ensures FlowChart.OrElse(OrBlank(c), None) == c
  {
  }

  /** Typing a positive whole number makes it the transfer's percentage. */
  lemma TypedWholeNumberIsUsed(t: FormTransfer, n: nat)
    requires n > 0
    requires t.percentageInput == Some(NatText(n))
    ensures Acceptable(t)
    ensures Cleaned(t, Effective(t).value).percentage == n as real
  {
    ParseFloatNatText(n);
  }

  /** Emptying any one percentage field makes the whole submit an alert,
      whatever the stored percentage was. */
  lemma ClearedFieldRejectsSubmit(f: Fields, k: nat)
    requires k < |f.transfers|
    requires f.transfers[k].percentageInput == Some("")
    ensures SubmissionOf(f) == Invalid(InvalidPercentageMessage)
  {
    assert !Acceptable(f.transfers[k]);
  }

  /** The editor's state. */
  class Form {
    var name: string
    var nameAsWritten: string
    var notes: string
    var personId: Id
    var transfers: seq<FormTransfer>
    var fillColor: string
    var borderColor: string
    var lineColor: string
    var relationship: string

    function State(): Fields
      reads this
    {
      Fields(name, nameAsWritten, notes, personId, transfers, fillColor, borderColor, lineColor, relationship)
    }

    /** The initial `useState` values. */
    constructor()
      ensures State() == Fields("", "", "", "", [], "", "", "", "")
    {
      name, nameAsWritten, notes, personId := "", "", "", "";
      transfers := [];
      fillColor, borderColor, lineColor := "", "", "";
      relationship := "";
    }

    /** The effect that copies a node into the form. */
    method Load(owner: Owner)
      modifies this
      ensures State() == Loaded(owner)
    {
      name := owner.name;
      nameAsWritten := if owner.nameAsWritten != "" then owner.nameAsWritten else owner.name;
      notes := owner.notes;
      personId := owner.personId;
      fillColor := OrBlank(owner.color);
      borderColor := OrBlank(owner.borderColor);
      lineColor := OrBlank(owner.lineColor);
      relationship := owner.relationship;
      transfers := Untyped(owner.transfers);
    }

    /** handleTransferPercentageChange: records the typed text of one transfer. */
    method ChangePercentage(index: int, value: string)
      modifies this`transfers
      ensures |transfers| == |old(transfers)|
      ensures forall k :: 0 <= k < |transfers| && k != index ==> transfers[k] == old(transfers)[k]
      ensures 0 <= index < |transfers| ==>
        transfers[index] == old(transfers)[index].(percentageInput := Some(value))
    {
      if 0 <= index < |transfers| {
        transfers := transfers[index := transfers[index].(percentageInput := Some(value))];
      }
    }

    /** handleTransferDocumentChange: one transfer's document, `null` when none is picked. */
    method ChangeDocument(index: int, docId: string)
      modifies this`transfers
      ensures |transfers| == |old(transfers)|
      ensures forall k :: 0 <= k < |transfers| && k != index ==> transfers[k] == old(transfers)[k]
      ensures 0 <= index < |transfers| ==>
        transfers[index].percentageInput == old(transfers)[index].percentageInput &&
        transfers[index].transfer == old(transfers)[index].transfer.(documentId := if docId == "" then None else Some(docId))
    {
      if 0 <= index < |transfers| {
        var t := transfers[index].transfer;
        transfers := transfers[index := transfers[index].(transfer := t.(documentId := if docId == "" then None else Some(docId)))];
      }
    }

    /** The line-colour picker of one transfer. */
    method SetEdgeColor(index: int, color: string)
      modifies this`transfers
      ensures |transfers| == |old(transfers)|
      ensures forall k :: 0 <= k < |transfers| && k != index ==> transfers[k] == old(transfers)[k]
      ensures 0 <= index < |transfers| ==>
        transfers[index].percentageInput == old(transfers)[index].percentageInput &&
        transfers[index].transfer == old(transfers)[index].transfer.(edgeColor := Some(color))
    {
      if 0 <= index < |transfers| {
        var t := transfers[index].transfer;
        transfers := transfers[index := transfers[index].(transfer := t.(edgeColor := Some(color)))];
      }
    }

    /** The Reset button next to the picker: back to the default colour. */
    method ResetEdgeColor(index: int)
      modifies this`transfers
      ensures |transfers| == |old(transfers)|
      ensures forall k :: 0 <= k < |transfers| && k != index ==> transfers[k] == old(transfers)[k]
      ensures 0 <= index < |transfers| ==>
        transfers[index].percentageInput == old(transfers)[index].percentageInput &&
        transfers[index].transfer == old(transfers)[index].transfer.(edgeColor := None)
    {
      if 0 <= index < |transfers| {
        var t := transfers[index].transfer;
        transfers := transfers[index := transfers[index].(transfer := t.(edgeColor := None))];
      }
    }

    /** handleDeleteTransfer: refused while one transfer or none is left, so a
        non-root node never loses its last transfer here. */
    method DeleteTransfer(index: int) returns (outcome: FlowChart.Outcome)
      modifies this`transfers
      ensures |old(transfers)| <= 1 ==> outcome == FlowChart.Alerted(LastTransferMessage) && transfers == old(transfers)
      ensures |old(transfers)| > 1 ==> outcome == FlowChart.Applied && transfers == DropIndex(old(transfers), index)
      ensures old(transfers) != [] ==> transfers != []
    {
      if |transfers| <= 1 {
        return FlowChart.Alerted(LastTransferMessage);
      }
      transfers := DropIndex(transfers, index);
      outcome := FlowChart.Applied;
    }

    /** handleSubmit. */
    function Submit(): (r: Submission)
      reads this
      ensures r.Invalid? <==> exists k :: 0 <= k < |transfers| && !Acceptable(transfers[k])
      ensures r.Submitted? ==> r.edit.transfers == CleanTransfers(transfers)
    {
      SubmissionOf(State())
    }
  }
}
