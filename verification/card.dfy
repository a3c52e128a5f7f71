/**
 * One certificate card (src/components/CertificateCard.js): which optional
 * rows it shows, and the two-step delete confirmation that must be armed by
 * the trash button before the parent's `onDelete` can be called.
 */
module Card {
  import opened Collections
  import opened Records

  /** The optional rows, in the order the card shows them. */
  const OptionalRows: seq<string> := ["expiry_date", "credential_id", "description", "verification_url"]

  /** The test "this optional row is rendered" for one certificate. */
  function Shown(c: Certificate): string -> bool
  {
    (name: string) => Present(c.fields, name)
  }

  /** The optional rows the card renders, in display order. */
  function VisibleRows(c: Certificate): (rows: seq<string>)
    ensures forall name :: name in rows <==> name in OptionalRows && Present(c.fields, name)
  {
    var rows := Filter(OptionalRows, Shown(c));
    assert forall name :: name in rows <==> name in OptionalRows && Present(c.fields, name) by {
      forall name
        ensures name in rows <==> name in OptionalRows && Present(c.fields, name)
      {
        FilterMembers(OptionalRows, Shown(c), name);
      }
    }
    rows
  }

  /** The card's inputs: the trash button, and the overlay's Delete and Cancel buttons. */
  datatype CardEvent = TrashClicked | DeleteConfirmed | DeleteCancelled

  /** What the card shows and the ids it has passed to `onDelete`, oldest first. */
  datatype CardView = CardView(confirmShown: bool, deleteCalls: seq<string>)

  /** A freshly rendered card: overlay hidden, `onDelete` never called. */
  const InitialView: CardView := CardView(false, [])

  /**
   * One input. The overlay's buttons exist only while it is shown, so a
   * Delete or Cancel click cannot arrive while it is hidden and changes
   * nothing then.
   */
  function Step(v: CardView, e: CardEvent, id: string): (w: CardView)
    ensures e == TrashClicked ==> w.confirmShown
    ensures e != TrashClicked ==> !w.confirmShown
    ensures w.deleteCalls == v.deleteCalls || (e == DeleteConfirmed && w.deleteCalls == v.deleteCalls + [id])
  {
    match e
    case TrashClicked => v.(confirmShown := true)
    case DeleteConfirmed => if v.confirmShown then CardView(false, v.deleteCalls + [id]) else v
    case DeleteCancelled => v.(confirmShown := false)
  }

  /** The view after a sequence of inputs. */
  function Run(v: CardView, events: seq<CardEvent>, id: string): (w: CardView)
    ensures v.deleteCalls <= w.deleteCalls
    ensures |w.deleteCalls| <= |v.deleteCalls| + |events|
  {
    if events == [] then v
    else Step(Run(v, events[..|events| - 1], id), events[|events| - 1], id)
  }

  /** How many inputs of one kind a sequence holds. */
  function Count(events: seq<CardEvent>, e: CardEvent): nat
  {
    if events == [] then 0
    else Count(events[..|events| - 1], e) + (if events[|events| - 1] == e then 1 else 0)
  }

  /**
   * Every `onDelete` call carries the card's own id, and each arming of the
   * overlay allows at most one call: calls plus a still-armed overlay never
   * outnumber trash clicks.
   */
  lemma {:induction false} RunDeletes(events: seq<CardEvent>, id: string)
    ensures forall k :: 0 <= k < |Run(InitialView, events, id).deleteCalls| ==>
              Run(InitialView, events, id).deleteCalls[k] == id
    ensures |Run(InitialView, events, id).deleteCalls|
              + (if Run(InitialView, events, id).confirmShown then 1 else 0)
            <= Count(events, TrashClicked)
  {
    if events != [] {
      RunDeletes(events[..|events| - 1], id);
    }
  }

  /** How many Delete clicks came directly after a trash click. */
  function ArmedConfirms(events: seq<CardEvent>): nat
  {
    if events == [] then 0
    else
      var init := events[..|events| - 1];
      ArmedConfirms(init)
      + (if events[|events| - 1] == DeleteConfirmed && init != [] && init[|init| - 1] == TrashClicked then 1 else 0)
  }

  /**
   * `onDelete` is called exactly once for each Delete click that directly
   * follows a trash click, and never otherwise.
   */
  lemma {:induction false} RunDeleteCount(events: seq<CardEvent>, id: string)
    ensures |Run(InitialView, events, id).deleteCalls| == ArmedConfirms(events)
  {
    if events != [] {
      var init := events[..|events| - 1];
      RunDeleteCount(init, id);
      ArmedIffLastTrash(init, id);
    }
  }

  /**
   * Deletion needs the trash button and then the Delete button: if
   * `onDelete` has been called, a trash click came before a Delete click.
   */
  lemma {:induction false} DeleteNeedsArmThenConfirm(events: seq<CardEvent>, id: string)
    requires Run(InitialView, events, id).deleteCalls != []
    ensures exists i, j :: 0 <= i < j < |events| && events[i] == TrashClicked && events[j] == DeleteConfirmed
  {
    var init, last := events[..|events| - 1], events[|events| - 1];
    var before := Run(InitialView, init, id);
    if before.deleteCalls != [] {
      DeleteNeedsArmThenConfirm(init, id);
      var i, j :| 0 <= i < j < |init| && init[i] == TrashClicked && init[j] == DeleteConfirmed;
      assert events[i] == init[i] && events[j] == init[j];
    } else {
      assert last == DeleteConfirmed && before.confirmShown;
      ArmedIffLastTrash(init, id);
      assert events[|init| - 1] == TrashClicked;
    }
  }

  /** The overlay is shown exactly when the latest input was a trash click. */
  lemma ArmedIffLastTrash(events: seq<CardEvent>, id: string)
    ensures Run(InitialView, events, id).confirmShown <==> events != [] && events[|events| - 1] == TrashClicked
  {
  }

  /** One rendered card's state. */
  class CertificateCard {
    /** The record this card shows. */
    const certificate: Certificate
    /** Whether the delete confirmation overlay is shown. */
    var showDeleteConfirm: bool
    /** The ids passed to the parent's `onDelete`, oldest first. */
    ghost var deleteCalls: seq<string>

    /** The card's state as a `CardView`. */
    ghost function View(): CardView
      reads this
    {
      CardView(showDeleteConfirm, deleteCalls)
    }

    constructor (certificate: Certificate)
      ensures this.certificate == certificate
      ensures !showDeleteConfirm && deleteCalls == [] && View() == InitialView
    {
      this.certificate := certificate;
      showDeleteConfirm := false;
      deleteCalls := [];
    }

    /** The trash button arms the overlay. */
    method ClickTrash()
      modifies this
      ensures showDeleteConfirm && deleteCalls == old(deleteCalls)
      ensures View() == Step(old(View()), TrashClicked, certificate.id)
    {
      showDeleteConfirm := true;
    }

    /**
     * The overlay's Delete button (reachable only while the overlay is
     * shown): calls `onDelete` once with the card's id, returned as
     * `deletedId`, then hides the overlay.
     */
    method HandleDelete() returns (deletedId: string)
      requires showDeleteConfirm
      modifies this
      ensures deletedId == certificate.id
      ensures !showDeleteConfirm && deleteCalls == old(deleteCalls) + [deletedId]
      ensures View() == Step(old(View()), DeleteConfirmed, certificate.id)
    {
      deletedId := certificate.id;
      deleteCalls := deleteCalls + [deletedId];
      showDeleteConfirm := false;
    }

    /** The overlay's Cancel button hides it without calling `onDelete`. */
    method CancelDelete()
      modifies this
      ensures !showDeleteConfirm && deleteCalls == old(deleteCalls)
      ensures View() == Step(old(View()), DeleteCancelled, certificate.id)
    {
      showDeleteConfirm := false;
    }
  }
}
