/** `handleDrop` and `handleFileChange` upload the files of one drop or one
    selection one after another, awaiting each. Both are memoised with an
    empty dependency list, so they keep calling the `uploadFile` of the first
    render, which reads that render's `images`: every upload of a batch
    appends to the same captured list, and each emission replaces the one
    before it. `DropAsWritten` models that; `UploadSequential` models the
    evidently intended behaviour, where each upload sees the list the
    previous one produced. */
module UploadBatch {

  import opened Wrappers
  import opened ImageRecords
  import opened MultipleImageUploader

  /** As written: the last list emitted while uploading `files` in order,
      each upload built from `captured`. At most one new record survives. */
  function LastEmission(captured: seq<ImageRecord>, files: seq<FileInput>, outcomes: seq<UploadOutcome>): (r: Option<seq<ImageRecord>>)
    requires |files| == |outcomes|
    ensures r.Some? ==> |r.value| == |captured| + 1 && r.value[..|captured|] == captured
    decreases |files|
  {
    if |files| == 0 then None
    else
      var n := |files| - 1;
      var e := UploadFile(captured, files[n], outcomes[n], true).emitted;
      if e.Some? then e else LastEmission(captured, files[..n], outcomes[..n])
  }

  /** The loop of `handleDrop` / `handleFileChange` as written (lines 40-42
      and 49-51); `outcomes[i]` is the upload service's answer for `files[i]`. */
  method DropAsWritten(captured: seq<ImageRecord>, files: seq<FileInput>, outcomes: seq<UploadOutcome>)
    returns (last: Option<seq<ImageRecord>>)
    requires |files| == |outcomes|
    ensures last == LastEmission(captured, files, outcomes)
  {
    last := None;
    var i := 0;
    while i < |files|
      invariant 0 <= i <= |files|
      invariant last == LastEmission(captured, files[..i], outcomes[..i])
    {
      var effect := UploadFile(captured, files[i], outcomes[i], true);
      if effect.emitted.Some? {
        last := effect.emitted;
      }
      assert files[..i + 1][..i] == files[..i];
      assert outcomes[..i + 1][..i] == outcomes[..i];
      i := i + 1;
    }
    assert files[..i] == files && outcomes[..i] == outcomes;
  }

  /** Dropping two image files that both upload leaves the host with only the
      second one, ranked N + 1: the first upload is lost. */
  lemma DropLosesEarlierUploads(captured: seq<ImageRecord>, f1: FileInput, f2: FileInput, u1: string, u2: string)
    requires IsImageType(f1.mimeType) && IsImageType(f2.mimeType)
    ensures LastEmission(captured, [f1, f2], [Uploaded(u1), Uploaded(u2)]) ==
      Some(captured + [ImageRecord(u2, f2.name, "", |captured| + 1)])
  {
  }

  /** Intended: the host's list after uploading `files` in order, each upload
      built from the list the previous one left. */
  function SequentialResult(images: seq<ImageRecord>, files: seq<FileInput>, outcomes: seq<UploadOutcome>): (r: seq<ImageRecord>)
    requires |files| == |outcomes|
    decreases |files|
  {
    if |files| == 0 then images
    else
      var n := |files| - 1;
      var before := SequentialResult(images, files[..n], outcomes[..n]);
      match UploadFile(before, files[n], outcomes[n], true).emitted
      case Some(next) => next
      case None => before
  }

  /** The loop of `handleDrop` / `handleFileChange` with each upload reading
      the current list. */
  method UploadSequential(images: seq<ImageRecord>, files: seq<FileInput>, outcomes: seq<UploadOutcome>)
    returns (current: seq<ImageRecord>)
    requires |files| == |outcomes|
    ensures current == SequentialResult(images, files, outcomes)
  {
    current := images;
    var i := 0;
    while i < |files|
      invariant 0 <= i <= |files|
      invariant current == SequentialResult(images, files[..i], outcomes[..i])
    {
      var effect := UploadFile(current, files[i], outcomes[i], true);
      if effect.emitted.Some? {
        current := effect.emitted.value;
      }
      assert files[..i + 1][..i] == files[..i];
      assert outcomes[..i + 1][..i] == outcomes[..i];
      i := i + 1;
    }
    assert files[..i] == files && outcomes[..i] == outcomes;
  }

  /** The payloads of the files that pass the type check and upload, in
      the order the files were given. */
  function Accepted(files: seq<FileInput>, outcomes: seq<UploadOutcome>): (accepted: seq<Payload>)
    requires |files| == |outcomes|
    decreases |files|
  {
    if |files| == 0 then []
    else
      var n := |files| - 1;
      var rest := Accepted(files[..n], outcomes[..n]);
      if IsImageType(files[n].mimeType) && outcomes[n].Uploaded? then
        rest + [Payload(outcomes[n].secureUrl, files[n].name, "")]
      else rest
  }

  /** As written, a batch emits a list exactly when some file is accepted, and
      the one new record that survives is the last accepted file, ranked
      N + 1: every earlier accepted upload is lost. */
  lemma {:induction false} LastEmissionKeepsLastAccepted(captured: seq<ImageRecord>, files: seq<FileInput>, outcomes: seq<UploadOutcome>)
    requires |files| == |outcomes|
    ensures var r := LastEmission(captured, files, outcomes);
      var acc := Accepted(files, outcomes);
      (r.Some? <==> |acc| > 0) &&
      (r.Some? ==> PayloadOf(r.value[|captured|]) == acc[|acc| - 1] &&
                   r.value[|captured|].priority == |captured| + 1)
    decreases |files|
  {
    if |files| > 0 {
      var n := |files| - 1;
      LastEmissionKeepsLastAccepted(captured, files[..n], outcomes[..n]);
    }
  }

  /** With each upload reading the current list, the batch keeps the old
      list as a prefix, appends every accepted file in order, and ranks the
      new records by position: file k of the accepted ones gets N + k. */
  lemma {:induction false} SequentialAppendsInOrder(images: seq<ImageRecord>, files: seq<FileInput>, outcomes: seq<UploadOutcome>)
    requires |files| == |outcomes|
    ensures var r := SequentialResult(images, files, outcomes);
      |r| >= |images| && r[..|images|] == images &&
      Payloads(r[|images|..]) == Accepted(files, outcomes) &&
      (forall j :: |images| <= j < |r| ==> r[j].priority == j + 1)
    decreases |files|
  {
    if |files| > 0 {
      var n := |files| - 1;
      SequentialAppendsInOrder(images, files[..n], outcomes[..n]);
      var before := SequentialResult(images, files[..n], outcomes[..n]);
      var r := SequentialResult(images, files, outcomes);
      if IsImageType(files[n].mimeType) && outcomes[n].Uploaded? {
        var added := NewImage(before, files[n], outcomes[n].secureUrl);
        assert r == before + [added];
        assert r[..|images|] == before[..|images|];
        assert r[|images|..] == before[|images|..] + [added];
        PayloadsAppend(before[|images|..], [added]);
      }
    }
  }

  /** The intended batch keeps the rank invariant. */
  lemma SequentialKeepsInvariant(images: seq<ImageRecord>, files: seq<FileInput>, outcomes: seq<UploadOutcome>)
    requires |files| == |outcomes|
    requires Numbered(images)
    ensures Numbered(SequentialResult(images, files, outcomes))
  {
    SequentialAppendsInOrder(images, files, outcomes);
    var r := SequentialResult(images, files, outcomes);
    forall j | 0 <= j < |images| ensures r[j].priority == j + 1 {
      assert r[j] == r[..|images|][j];
    }
  }

  /** One more accepted file appends one record ranked by its position. */
  lemma SequentialAcceptsLast(images: seq<ImageRecord>, files: seq<FileInput>, outcomes: seq<UploadOutcome>,
                              f: FileInput, url: string)
    requires |files| == |outcomes|
    requires IsImageType(f.mimeType)
    ensures var before := SequentialResult(images, files, outcomes);
      SequentialResult(images, files + [f], outcomes + [Uploaded(url)]) ==
      before + [ImageRecord(url, f.name, "", |before| + 1)]
  {
    assert (files + [f])[..|files|] == files;
    assert (outcomes + [Uploaded(url)])[..|files|] == outcomes;
  }

  /** A single accepted file is appended with rank N + 1. */
  lemma {:induction false} SequentialOneFile(images: seq<ImageRecord>, f: FileInput, url: string)
    requires IsImageType(f.mimeType)
    ensures SequentialResult(images, [f], [Uploaded(url)]) == images + [ImageRecord(url, f.name, "", |images| + 1)]
  {
    var none: seq<FileInput>, noOutcome: seq<UploadOutcome> := [], [];
    assert none + [f] == [f] && noOutcome + [Uploaded(url)] == [Uploaded(url)];
    SequentialAcceptsLast(images, none, noOutcome, f, url);
  }

  /** Dropping two image files that both upload gives the first rank N + 1
      and the second rank N + 2. */
  lemma {:induction false} SequentialTwoFiles(images: seq<ImageRecord>, f1: FileInput, f2: FileInput, u1: string, u2: string)
    requires IsImageType(f1.mimeType) && IsImageType(f2.mimeType)
    ensures SequentialResult(images, [f1, f2], [Uploaded(u1), Uploaded(u2)]) ==
      images + [ImageRecord(u1, f1.name, "", |images| + 1), ImageRecord(u2, f2.name, "", |images| + 2)]
  {
    SequentialOneFile(images, f1, u1);
    assert [f1] + [f2] == [f1, f2] && [Uploaded(u1)] + [Uploaded(u2)] == [Uploaded(u1), Uploaded(u2)];
    SequentialAcceptsLast(images, [f1], [Uploaded(u1)], f2, u2);
    assert images + [ImageRecord(u1, f1.name, "", |images| + 1)] + [ImageRecord(u2, f2.name, "", |images| + 2)]
      == images + [ImageRecord(u1, f1.name, "", |images| + 1), ImageRecord(u2, f2.name, "", |images| + 2)];
  }
}
