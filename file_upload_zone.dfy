/**
 * The upload drop zone: which files are accepted (by MIME type or by file
 * name extension), the 5 MB size limit that rejects a whole batch, and how an
 * accepted batch is appended to the current selection.
 */
module FileUploadZone {
  import Seqs
  import Text

  /** A browser `File`: its name, MIME type and size in bytes. */
  datatype File = File(name: string, mime: string, size: nat)

  const MaxFileSizeBytes: nat := 5 * 1024 * 1024

  const SupportedTypes: seq<string> :=
    ["image/jpeg", "image/jpg", "image/png", "image/gif", "image/webp", "application/pdf"]

  const SupportedExtensions: seq<string> := [".jpg", ".jpeg", ".png", ".gif", ".webp", ".pdf"]

  /** The lower-cased name ends in one of the extensions. */
  predicate HasValidExtension(name: string)
  {
    exists i :: 0 <= i < |SupportedExtensions| && Text.EndsWith(Text.Lower(name), SupportedExtensions[i])
  }

  /** `validateFile(file)`. */
  predicate ValidateFile(f: File)
    ensures !ValidateFile(f) ==>
      && f.mime !in SupportedTypes
      && forall i :: 0 <= i < |SupportedExtensions| ==> !Text.EndsWith(Text.Lower(f.name), SupportedExtensions[i])
  {
    f.mime in SupportedTypes || HasValidExtension(f.name)
  }

  function IsValid(): File -> bool
  {
    (f: File) => ValidateFile(f)
  }

  function IsInvalid(): File -> bool
  {
    (f: File) => !ValidateFile(f)
  }

  /** `f.size > MAX_FILE_SIZE_BYTES`. */
  function IsOversized(): File -> bool
  {
    (f: File) => f.size > MaxFileSizeBytes
  }

  /** Upper- and lower-case names are accepted alike. */
  lemma ValidateIgnoresNameCase(f: File)
    ensures ValidateFile(File(Text.Lower(f.name), f.mime, f.size)) == ValidateFile(f)
  {
    Text.LowerIdempotent(f.name);
  }

  /** An upper-case extension is accepted whatever the MIME type says. */
  lemma UpperCaseExtensionAccepted()
    ensures ValidateFile(File("SCAN.PDF", "application/octet-stream", 10))
  {
    assert Text.Lower("SCAN.PDF") == "scan.pdf";
    assert Text.EndsWith("scan.pdf", SupportedExtensions[5]);
  }

  /** A file of exactly 5 MB is within the limit. */
  lemma ExactLimitIsAllowed(name: string, mime: string)
    ensures !IsOversized()(File(name, mime, 5242880))
    ensures IsOversized()(File(name, mime, 5242881))
  {
  }

  /** What dropping or picking a batch of files does. */
  datatype BatchResult =
      /** Some file is too large: the alert names them and nothing is selected. */
    | TooLarge(names: seq<string>)
      /** `onFileSelect` receives the new selection; unsupported files are named in an alert. */
    | Added(selection: seq<File>, unsupported: seq<string>)
      /** No file was valid: only the alert about unsupported files. */
    | NoneValid(unsupported: seq<string>)

  function Names(fs: seq<File>): seq<string>
  {
    Seqs.Map(fs, (f: File) => f.name)
  }

  /** `handleDrop` and `handleFileInput` on a batch, given the current selection. */
  function HandleIncoming(current: seq<File>, batch: seq<File>): (r: BatchResult)
    ensures r.TooLarge? <==> exists i :: 0 <= i < |batch| && batch[i].size > MaxFileSizeBytes
    ensures r.Added? ==> |current| < |r.selection| && r.selection[..|current|] == current
    ensures r.Added? ==> forall i :: |current| <= i < |r.selection| ==> ValidateFile(r.selection[i])
    ensures r.NoneValid? ==> forall i :: 0 <= i < |batch| ==> !ValidateFile(batch[i])
  {
    var oversized := Seqs.Filter(batch, IsOversized());
    Seqs.CountNoneIff(batch, IsOversized());
    if |oversized| > 0 then TooLarge(Names(oversized))
    else
      var valid := Seqs.Filter(batch, IsValid());
      var invalid := Seqs.Filter(batch, IsInvalid());
      Seqs.CountNoneIff(batch, IsValid());
      if |valid| > 0 then Added(current + valid, Names(invalid)) else NoneValid(Names(invalid))
  }

  /** An accepted batch is its valid files, appended in their order after the current ones. */
  lemma AcceptedIsCurrentThenValid(current: seq<File>, batch: seq<File>)
    requires HandleIncoming(current, batch).Added?
    ensures HandleIncoming(current, batch).selection == current + Seqs.Filter(batch, IsValid())
    ensures Seqs.IsSubsequence(Seqs.Filter(batch, IsValid()), batch)
    ensures forall f :: f in batch && ValidateFile(f) ==> f in HandleIncoming(current, batch).selection
  {
    Seqs.FilterIsSubsequence(batch, IsValid());
    forall f | f in batch && ValidateFile(f)
      ensures f in HandleIncoming(current, batch).selection
    {
      Seqs.FilterMembership(batch, IsValid(), f);
    }
  }

  /** With no oversized file, every file is either added or reported unsupported. */
  lemma ValidAndUnsupportedSplitBatch(batch: seq<File>)
    ensures |Seqs.Filter(batch, IsValid())| + |Seqs.Filter(batch, IsInvalid())| == |batch|
  {
    Seqs.FilterPartition(batch, IsValid(), IsInvalid());
  }

  /** `handleRemoveFile(i)`: the selection without index i, the rest in order. */
  function HandleRemoveFile(selection: seq<File>, i: int): (r: seq<File>)
    ensures 0 <= i < |selection| ==> |r| == |selection| - 1 && r == selection[..i] + selection[i + 1..]
    ensures !(0 <= i < |selection|) ==> r == selection
    ensures Seqs.IsSubsequence(r, selection)
  {
    Seqs.RemoveIndexIsSubsequence(selection, i);
    Seqs.RemoveIndex(selection, i)
  }

  /** Removing the file just added restores the earlier selection. */
  lemma RemoveUndoesAdd(current: seq<File>, f: File)
    ensures HandleRemoveFile(current + [f], |current|) == current
  {
    assert (current + [f])[..|current|] == current;
  }
}
