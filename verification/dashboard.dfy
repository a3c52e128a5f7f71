/**
 * The dashboard (src/components/Dashboard.js): the in-memory list of the
 * user's certificates, the `loading` flag and the `showModal` flag, and how
 * each remote call's success or failure changes them.
 */
module Dashboard {
  import opened Collections
  import opened Records
  import Form

  /** The outcome of the initial query: its `data` (possibly null), or an error. */
  datatype LoadResult = Loaded(data: Option<seq<Certificate>>) | LoadFailed

  /** The outcome of an insert followed by `select()`: the stored row, or an error. */
  datatype InsertResult = Inserted(row: Certificate) | InsertFailed

  /** The property every insert is scoped by. */
  const UserIdKey: string := "user_id"

  /**
   * The insert payload `{ ...draft, user_id: userId }`: the draft with the
   * owner set to the current user, whatever owner the draft carried.
   */
  function InsertPayload(draft: Fields, userId: string): (payload: Fields)
    ensures UserIdKey in payload && payload[UserIdKey] == userId
    ensures payload.Keys == draft.Keys + {UserIdKey}
    ensures forall k :: k in draft && k != UserIdKey ==> payload[k] == draft[k]
  {
    With(draft, UserIdKey, userId)
  }

  /**
   * A draft submitted by the add-certificate dialog has the seven form
   * fields and no owner, so its payload has those fields with their values
   * unchanged, plus the owner: eight properties.
   */
  lemma DraftPayload(draft: Fields, userId: string)
    requires draft.Keys == set name | name in Form.FieldNames
    ensures InsertPayload(draft, userId).Keys == draft.Keys + {UserIdKey}
    ensures UserIdKey !in draft
    ensures |InsertPayload(draft, userId)| == 8
    ensures forall k :: k in draft ==> InsertPayload(draft, userId)[k] == draft[k]
  {
    Form.InitialDraftShape();
    assert draft.Keys == Form.InitialDraft.Keys;
    assert UserIdKey !in Form.InitialDraft;
    assert |draft.Keys| == 7;
  }

  /** The test `cert => cert.id !== id`. */
  function IdIsNot(id: string): Certificate -> bool
  {
    (c: Certificate) => c.id != id
  }

  /** `certificates.filter(cert => cert.id !== id)`. */
  function RemoveById(certs: seq<Certificate>, id: string): (r: seq<Certificate>)
    ensures forall c :: c in r <==> c in certs && c.id != id
    ensures (forall i :: 0 <= i < |certs| ==> certs[i].id != id) ==> r == certs
  {
    var keep := IdIsNot(id);
    assert forall c :: c in Filter(certs, keep) <==> c in certs && c.id != id by {
      forall c ensures c in Filter(certs, keep) <==> c in certs && c.id != id {
        FilterMembers(certs, keep, c);
      }
    }
    assert (forall i :: 0 <= i < |certs| ==> certs[i].id != id) ==> Filter(certs, keep) == certs by {
      if forall i :: 0 <= i < |certs| ==> certs[i].id != id {
        FilterAll(certs, keep);
      }
    }
    Filter(certs, keep)
  }

  /** Deleting an id a second time finds nothing more to remove. */
  lemma DeleteTwice(certs: seq<Certificate>, id: string)
    ensures RemoveById(RemoveById(certs, id), id) == RemoveById(certs, id)
  {
    var once := RemoveById(certs, id);
    forall i | 0 <= i < |once|
      ensures once[i].id != id
    {
      assert once[i] in once;
    }
  }

  /** Deleting keeps the surviving records in their order: it distributes over concatenation. */
  lemma DeleteKeepsOrder(a: seq<Certificate>, b: seq<Certificate>, id: string)
    ensures RemoveById(a + b, id) == RemoveById(a, id) + RemoveById(b, id)
  {
    FilterConcat(a, b, IdIsNot(id));
  }

  /** Deleting the record just prepended, when no other record has its id, restores the list. */
  lemma AddThenDelete(row: Certificate, certs: seq<Certificate>)
    requires forall i :: 0 <= i < |certs| ==> certs[i].id != row.id
    ensures RemoveById([row] + certs, row.id) == certs
  {
    DeleteKeepsOrder([row], certs, row.id);
    assert row !in RemoveById([row], row.id);
  }

  /** The dashboard's state for one signed-in user. */
  class DashboardState {
    /** The signed-in user's id. */
    const userId: string
    /** The certificates shown, newest first as the query orders them. */
    var certificates: seq<Certificate>
    /** True until the initial load has finished, successfully or not. */
    var loading: bool
    /** Whether the add-certificate dialog is open. */
    var showModal: bool

    constructor (userId: string)
      ensures this.userId == userId
      ensures certificates == [] && loading && !showModal
    {
      this.userId := userId;
      certificates, loading, showModal := [], true, false;
    }

    /**
     * The initial query's effect: on success the list becomes the returned
     * rows (none if the data is null); on failure it stays as it was.
     * `loading` is lowered either way.
     */
    method LoadCertificates(result: LoadResult)
      modifies this
      ensures certificates == match result
                              case Loaded(Some(rows)) => rows
                              case Loaded(None) => []
                              case LoadFailed => old(certificates)
      ensures !loading && showModal == old(showModal)
    {
      if result.Loaded? {
        certificates := match result.data case Some(rows) => rows case None => [];
      }
      loading := false;
    }

    /** The "Add Certificate" buttons open the dialog. */
    method OpenModal()
      modifies this
      ensures showModal
      ensures certificates == old(certificates) && loading == old(loading)
    {
      showModal := true;
    }

    /** The dialog's close and cancel buttons close it. */
    method CloseModal()
      modifies this
      ensures !showModal
      ensures certificates == old(certificates) && loading == old(loading)
    {
      showModal := false;
    }

    /**
     * The dialog's submit: sends the draft, owned by this user, to the store
     * (the payload is returned); on success prepends the stored row and closes
     * the dialog, on failure changes nothing.
     */
    method HandleAddCertificate(draft: Fields, result: InsertResult) returns (payload: Fields)
      modifies this
      ensures payload == InsertPayload(draft, userId)
      ensures result.Inserted? ==> certificates == [result.row] + old(certificates) && !showModal
      ensures result.InsertFailed? ==> certificates == old(certificates) && showModal == old(showModal)
      ensures loading == old(loading)
    {
      payload := InsertPayload(draft, userId);
      if result.Inserted? {
        certificates := [result.row] + certificates;
        showModal := false;
      }
    }

    /**
     * A card's confirmed delete: when the store reports success, every record
     * with that id leaves the list; on failure nothing changes.
     */
    method HandleDeleteCertificate(id: string, succeeded: bool)
      modifies this
      ensures certificates == if succeeded then RemoveById(old(certificates), id) else old(certificates)
      ensures loading == old(loading) && showModal == old(showModal)
    {
      if succeeded {
        certificates := RemoveById(certificates, id);
      }
    }
  }

  /**
   * Mounting the dashboard: the state starts empty and loading, and the
   * initial query runs once. Whatever its outcome, loading ends; a failed
   * query leaves the list empty.
   */
  method Mount(userId: string, result: LoadResult) returns (d: DashboardState)
    ensures !d.loading && !d.showModal && d.userId == userId
    ensures result.LoadFailed? || result == Loaded(None) ==> d.certificates == []
    ensures result.Loaded? && result.data.Some? ==> d.certificates == result.data.value
  {
    d := new DashboardState(userId);
    d.LoadCertificates(result);
  }
}
