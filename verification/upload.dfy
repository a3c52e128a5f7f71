/**
 * The file intake dialog (src/components/CertificateUpload.js): a filter on
 * the files a user drops or picks, an ordered queue of accepted files, and a
 * batch upload that sends the queue to the caller's upload callback one file
 * at a time and stops at the first failure.
 */
module Upload {
  import opened Collections

  /** A browser `File` as the intake sees it: name, MIME type and size in bytes. */
  datatype FileHandle = FileHandle(name: string, mimeType: string, size: nat)

  /** The MIME types the intake lets through. */
  const AllowedTypes: seq<string> := ["application/pdf", "image/jpeg", "image/png", "image/jpg"]

  /** The largest accepted size in bytes: 10 MiB, inclusive. */
  const MaxFileSize: nat := 10 * 1024 * 1024

  /** The per-file test of the intake filter. */
  predicate Accepts(f: FileHandle)
    ensures Accepts(f) ==> f.size <= 10485760
    ensures Accepts(f) ==> f.mimeType in {"application/pdf", "image/jpeg", "image/png", "image/jpg"}
  {
    f.mimeType in AllowedTypes && f.size <= MaxFileSize
  }

  /** The accept rule spelled out, with the ceiling itself on the accepted side. */
  lemma AcceptsExactly(f: FileHandle)
    ensures Accepts(f) <==>
              (|| f.mimeType == "application/pdf"
               || f.mimeType == "image/jpeg"
               || f.mimeType == "image/png"
               || f.mimeType == "image/jpg")
              && f.size <= 10485760
    ensures Accepts(FileHandle(f.name, "application/pdf", 10485760))
    ensures !Accepts(FileHandle(f.name, "application/pdf", 10485761))
  {
  }

  /** The files of one drop or pick that pass the filter, in the order given. */
  function ValidFiles(files: seq<FileHandle>): (valid: seq<FileHandle>)
    ensures forall f :: f in valid <==> f in files && Accepts(f)
  {
    var valid := Filter(files, Accepts);
    assert forall f :: f in valid <==> f in files && Accepts(f) by {
      forall f
        ensures f in valid <==> f in files && Accepts(f)
      {
        FilterMembers(files, Accepts, f);
      }
    }
    valid
  }

  /**
   * The filter keeps exactly the accepted files, each as often as it was
   * given, drops the rejected ones, and keeps relative order (it distributes
   * over concatenation).
   */
  lemma ValidFilesExactly(files: seq<FileHandle>, more: seq<FileHandle>)
    ensures forall i :: 0 <= i < |ValidFiles(files)| ==> Accepts(ValidFiles(files)[i])
    ensures forall f :: multiset(ValidFiles(files))[f] == if Accepts(f) then multiset(files)[f] else 0
    ensures ValidFiles(files + more) == ValidFiles(files) + ValidFiles(more)
    ensures (forall i :: 0 <= i < |files| ==> Accepts(files[i])) ==> ValidFiles(files) == files
  {
    forall f
      ensures multiset(ValidFiles(files))[f] == if Accepts(f) then multiset(files)[f] else 0
    {
      FilterCount(files, Accepts, f);
    }
    FilterConcat(files, more, Accepts);
    if forall i :: 0 <= i < |files| ==> Accepts(files[i]) {
      FilterAll(files, Accepts);
    }
  }

  /**
   * The queue without the entry at position `index`, computed as a filter on
   * positions (`filter((_, i) => i !== index)`); a position outside the queue
   * matches nothing.
   */
  function WithoutIndex<T>(q: seq<T>, index: int): (r: seq<T>)
    ensures 0 <= index < |q| ==> r == q[..index] + q[index + 1..]
    ensures !(0 <= index < |q|) ==> r == q
  {
    if q == [] then []
    else (if index == 0 then [] else [q[0]]) + WithoutIndex(q[1..], index - 1)
  }

  /**
   * The body of the batch upload: calls the upload callback on each queued
   * file in queue order and stops at the first call that fails.
   * `outcome(k)` is whether the k-th call of the batch succeeds.
   * Returns the files the callback was called with, and whether all succeeded.
   */
  method UploadAll(queue: seq<FileHandle>, outcome: nat -> bool) returns (attempted: seq<FileHandle>, ok: bool)
    ensures attempted <= queue
    ensures ok <==> forall k :: 0 <= k < |queue| ==> outcome(k)
    ensures ok ==> attempted == queue
    ensures !ok ==> |attempted| > 0 && !outcome(|attempted| - 1)
    ensures forall k :: 0 <= k < |attempted| - 1 ==> outcome(k)
  {
    attempted := [];
    for i := 0 to |queue|
      invariant attempted == queue[..i]
      invariant forall k :: 0 <= k < i ==> outcome(k)
    {
      attempted := attempted + [queue[i]];
      if !outcome(i) {
        return attempted, false;
      }
    }
    ok := true;
  }

  /** The intake dialog's state. */
  class Intake {
    /** The queue of accepted files, in the order they were accepted. */
    var uploadedFiles: seq<FileHandle>
    /** Set while a batch upload runs. */
    var uploading: bool
    /** Every value written to `uploading`, oldest first. */
    ghost var uploadingWrites: seq<bool>

    constructor ()
      ensures uploadedFiles == [] && !uploading && uploadingWrites == []
    {
      uploadedFiles, uploading := [], false;
      uploadingWrites := [];
    }

    /** The upload button is disabled while the queue is empty or a batch runs. */
    predicate UploadButtonEnabled()
      reads this
      ensures UploadButtonEnabled() ==> uploadedFiles != [] && !uploading
    {
      |uploadedFiles| > 0 && !uploading
    }

    /** Appends the accepted files of one drop or pick to the queue. */
    method HandleFiles(files: seq<FileHandle>)
      modifies this
      ensures uploadedFiles == old(uploadedFiles) + ValidFiles(files)
      ensures uploading == old(uploading) && uploadingWrites == old(uploadingWrites)
    {
      uploadedFiles := uploadedFiles + ValidFiles(files);
    }

    /** A drop: an empty file list leaves the queue alone. */
    method HandleDrop(files: seq<FileHandle>)
      modifies this
      ensures files == [] ==> uploadedFiles == old(uploadedFiles)
      ensures files != [] ==> uploadedFiles == old(uploadedFiles) + ValidFiles(files)
      ensures uploading == old(uploading) && uploadingWrites == old(uploadingWrites)
    {
      if |files| > 0 {
        HandleFiles(files);
      }
    }

    /** A pick from the file dialog: an empty file list leaves the queue alone. */
    method HandleChange(files: seq<FileHandle>)
      modifies this
      ensures files == [] ==> uploadedFiles == old(uploadedFiles)
      ensures files != [] ==> uploadedFiles == old(uploadedFiles) + ValidFiles(files)
      ensures uploading == old(uploading) && uploadingWrites == old(uploadingWrites)
    {
      if |files| > 0 {
        HandleFiles(files);
      }
    }

    /** Drops the queued file at `index`; any other index changes nothing. */
    method RemoveFile(index: int)
      modifies this
      ensures 0 <= index < |old(uploadedFiles)| ==>
                uploadedFiles == old(uploadedFiles)[..index] + old(uploadedFiles)[index + 1..]
      ensures !(0 <= index < |old(uploadedFiles)|) ==> uploadedFiles == old(uploadedFiles)
      ensures uploading == old(uploading) && uploadingWrites == old(uploadingWrites)
    {
      uploadedFiles := WithoutIndex(uploadedFiles, index);
    }

    /**
     * The upload button's handler. With an empty queue it does nothing.
     * Otherwise it raises `uploading`, runs the batch, and on full success
     * clears the queue and calls `onClose` (reported as `closed`); on a
     * failure the queue stays as it was. `uploading` is lowered either way.
     */
    method HandleUpload(outcome: nat -> bool) returns (attempted: seq<FileHandle>, closed: bool)
      modifies this
      ensures old(uploadedFiles) == [] ==>
                && attempted == [] && uploadedFiles == []
                && uploading == old(uploading) && uploadingWrites == old(uploadingWrites)
      ensures old(uploadedFiles) != [] ==>
                !uploading && uploadingWrites == old(uploadingWrites) + [true, false]
      ensures attempted <= old(uploadedFiles)
      ensures closed <==> old(uploadedFiles) != [] && forall k :: 0 <= k < |old(uploadedFiles)| ==> outcome(k)
      ensures closed ==> attempted == old(uploadedFiles)
      ensures old(uploadedFiles) != [] ==> attempted != []
      ensures !closed && attempted != [] ==> !outcome(|attempted| - 1)
      ensures forall k :: 0 <= k < |attempted| - 1 ==> outcome(k)
      ensures uploadedFiles == if closed then [] else old(uploadedFiles)
      ensures old(uploadedFiles) != [] ==> (UploadButtonEnabled() <==> !closed)
    {
      if |uploadedFiles| == 0 {
        return [], false;
      }
      uploading := true;
      uploadingWrites := uploadingWrites + [true];
      var ok;
      attempted, ok := UploadAll(uploadedFiles, outcome);
      if ok {
        uploadedFiles := [];
      }
      closed := ok;
      uploading := false;
      uploadingWrites := uploadingWrites + [false];
    }
  }
}
