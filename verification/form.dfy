/**
 * The add-certificate dialog (src/components/AddCertificateModal.js): a
 * seven-field text draft that each input edits one field at a time, and a
 * submit that hands the draft to the parent as it stands.
 */
module Form {
  import opened Records

  /** The draft's fields, in the order of the inputs. */
  const FieldNames: seq<string> :=
    ["title", "issuer", "issue_date", "expiry_date", "credential_id", "verification_url", "description"]

  /** The draft a fresh dialog starts with: every field empty. */
  const InitialDraft: Fields := map[
    "title" := "", "issuer" := "", "issue_date" := "", "expiry_date" := "",
    "credential_id" := "", "verification_url" := "", "description" := ""]

  /** The initial draft has exactly the seven fields, all empty. */
  lemma InitialDraftShape()
    ensures InitialDraft.Keys == set name | name in FieldNames
    ensures |InitialDraft| == 7
    ensures forall name :: name in InitialDraft ==> InitialDraft[name] == ""
  {
    assert |FieldNames| == 7;
  }

  /** One open dialog. */
  class AddCertificateForm {
    /** The draft as the inputs show it. */
    var formData: Fields
    /** The drafts handed to the parent's `onAdd`, oldest first. */
    ghost var added: seq<Fields>
    /** How often the parent's `onClose` has been called. */
    ghost var closeCalls: nat

    /** The draft holds exactly the seven fields. */
    ghost predicate Valid()
      reads this
    {
      formData.Keys == set name | name in FieldNames
    }

    constructor ()
      ensures Valid() && formData == InitialDraft && added == [] && closeCalls == 0
    {
      formData := InitialDraft;
      added, closeCalls := [], 0;
      InitialDraftShape();
    }

    /**
     * An input's change: the input's field takes the new value and every
     * other field keeps its value.
     */
    method HandleChange(name: string, value: string)
      requires Valid() && name in FieldNames
      modifies this
      ensures Valid()
      ensures formData == With(old(formData), name, value)
      ensures formData[name] == value
      ensures forall k :: k in formData && k != name ==> formData[k] == old(formData)[k]
      ensures added == old(added) && closeCalls == old(closeCalls)
    {
      formData := With(formData, name, value);
    }

    /**
     * Submit: hands the draft to `onAdd` exactly as it stands (returned as
     * `submitted`), with no trimming or checking, and keeps the draft.
     */
    method HandleSubmit() returns (submitted: Fields)
      modifies this
      ensures submitted == old(formData) && formData == old(formData)
      ensures added == old(added) + [submitted] && closeCalls == old(closeCalls)
    {
      submitted := formData;
      added := added + [submitted];
    }

    /** The close and Cancel buttons call `onClose` and never `onAdd`. */
    method Close()
      modifies this
      ensures formData == old(formData) && added == old(added)
      ensures closeCalls == old(closeCalls) + 1
    {
      closeCalls := closeCalls + 1;
    }
  }
}
