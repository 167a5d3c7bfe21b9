/** The list-editing handlers of the `MultipleImageUploader` component. Each
    handler reads the `images` array it was rendered with and computes the
    array it hands to `onImagesUpdate`; a handler that returns without calling
    the callback yields `None`. */
module MultipleImageUploader {

  import opened Wrappers
  import opened Splice
  import opened ImageRecords

  /** The part of a browser `File` the uploader looks at. */
  datatype FileInput = FileInput(name: string, mimeType: string)

  /** What the upload service call comes to: the `secure_url` of the stored
      asset, or a failure (the request threw, the response was not `ok`, or
      its body could not be read). */
  datatype UploadOutcome = Uploaded(secureUrl: string) | UploadFailed

  /** What one call of `uploadFile` leaves behind: the list passed to
      `onImagesUpdate`, if it was called, and the error message shown. */
  datatype UploadEffect = UploadEffect(emitted: Option<seq<ImageRecord>>, error: string)

  const NotAnImageMessage: string := "Please select an image file"
  const UploadFailedMessage: string := "Failed to upload image. Please try again."

  /** `s` contains "image" starting at position `i`. */
  predicate ImageAt(s: string, i: int) {
    0 <= i && i + 5 <= |s| && s[i..i + 5] == "image"
  }

  /** `file.type.match('image.*')` succeeds: the string argument becomes an
      unanchored regular expression, and since `.*` may match nothing, it
      succeeds exactly when "image" occurs somewhere in the MIME type. */
  function IsImageType(mimeType: string): (b: bool)
    ensures b ==> |mimeType| >= 5
    ensures |mimeType| >= 5 && mimeType[..5] == "image" ==> b
    decreases |mimeType|
  {
    |mimeType| >= 5 && (mimeType[..5] == "image" || IsImageType(mimeType[1..]))
  }

  /** An occurrence of "image" anywhere makes the test pass. */
  lemma {:induction false} SubstringMakesImageType(mimeType: string, i: int)
    requires ImageAt(mimeType, i)
    ensures IsImageType(mimeType)
    decreases i
  {
    if i > 0 {
      assert mimeType[1..][i - 1..i + 4] == mimeType[i..i + 5];
      SubstringMakesImageType(mimeType[1..], i - 1);
    }
  }

  /** A passing test has an occurrence of "image" to point at. */
  lemma {:induction false} ImageTypeHasSubstring(mimeType: string)
    requires IsImageType(mimeType)
    ensures exists i :: ImageAt(mimeType, i)
    decreases |mimeType|
  {
    if mimeType[..5] == "image" {
      assert ImageAt(mimeType, 0);
    } else {
      ImageTypeHasSubstring(mimeType[1..]);
      var i :| ImageAt(mimeType[1..], i);
      assert mimeType[1..][i..i + 5] == mimeType[i + 1..i + 6];
      assert ImageAt(mimeType, i + 1);
    }
  }

  /** The recursive test is the substring search the regular expression does. */
  lemma IsImageTypeMeansSubstring(mimeType: string)
    ensures IsImageType(mimeType) <==> exists i :: ImageAt(mimeType, i)
  {
    if IsImageType(mimeType) {
      ImageTypeHasSubstring(mimeType);
    }
    if i :| ImageAt(mimeType, i) {
      SubstringMakesImageType(mimeType, i);
    }
  }

  /** The usual image MIME type passes. */
  lemma PngIsImage()
    ensures IsImageType("image/png")
  {
    assert "image/png"[..5] == "image";
  }

  /** A MIME type without the letter 'm' cannot contain "image". */
  lemma {:induction false} NoMMeansNotImage(mimeType: string)
    requires forall k :: 0 <= k < |mimeType| ==> mimeType[k] != 'm'
    ensures !IsImageType(mimeType)
    decreases |mimeType|
  {
    if |mimeType| >= 5 {
      assert mimeType[..5][1] == mimeType[1];
      NoMMeansNotImage(mimeType[1..]);
    }
  }

  /** A plain-text file does not pass. */
  lemma PlainTextIsNotImage()
    ensures !IsImageType("text/plain")
  {
    NoMMeansNotImage("text/plain");
  }

  /** The match is not anchored: "image" anywhere in the type passes. */
  lemma UnanchoredMatch()
    ensures IsImageType("application/x-image")
  {
    assert "application/x-image"[14..19] == "image";
    SubstringMakesImageType("application/x-image", 14);
  }

  /** The record `uploadFile` builds from a successful upload. */
  function NewImage(images: seq<ImageRecord>, file: FileInput, url: string): (r: ImageRecord)
    ensures PayloadOf(r) == Payload(url, file.name, "")
    ensures r.priority == |images| + 1
    ensures Numbered(images) ==> Numbered(images + [r])
  {
    ImageRecord(url, file.name, "", |images| + 1)
  }

  /** `uploadFile(file)`: reject a non-image file, otherwise upload it and, if
      the host gave a callback, append the new record. `outcome` stands for the
      upload service's answer, `hasCallback` for `onImagesUpdate` being set. */
  function UploadFile(images: seq<ImageRecord>, file: FileInput, outcome: UploadOutcome,
                      hasCallback: bool): (e: UploadEffect)
    ensures !IsImageType(file.mimeType) ==> e == UploadEffect(None, NotAnImageMessage)
    ensures IsImageType(file.mimeType) && outcome.UploadFailed? ==> e == UploadEffect(None, UploadFailedMessage)
    ensures e.emitted.Some? <==> IsImageType(file.mimeType) && outcome.Uploaded? && hasCallback
    ensures IsImageType(file.mimeType) && outcome.Uploaded? ==> e.error == ""
  {
    if !IsImageType(file.mimeType) then
      UploadEffect(None, NotAnImageMessage)
    else
      match outcome
      case UploadFailed => UploadEffect(None, UploadFailedMessage)
      case Uploaded(url) =>
        UploadEffect(if hasCallback then Some(images + [NewImage(images, file, url)]) else None, "")
  }

  /** A successful upload keeps the list and adds one record at the end:
      the returned url, the file's name as title, an empty description and
      rank N + 1; the invariant is kept. */
  lemma UploadAppends(images: seq<ImageRecord>, file: FileInput, url: string)
    requires IsImageType(file.mimeType)
    ensures UploadFile(images, file, Uploaded(url), true).emitted.Some?
    ensures var out := UploadFile(images, file, Uploaded(url), true).emitted.value;
      |out| == |images| + 1 && out[..|images|] == images &&
      out[|images|] == ImageRecord(url, file.name, "", |images| + 1) &&
      (Numbered(images) ==> Numbered(out))
  {
    var out := UploadFile(images, file, Uploaded(url), true).emitted.value;
    assert out == images + [NewImage(images, file, url)];
    assert out[..|images|] == images;
  }

  /** Example: a `text/plain` file is refused before any upload. */
  lemma PlainTextRejected(images: seq<ImageRecord>, name: string, outcome: UploadOutcome, hasCallback: bool)
    ensures UploadFile(images, FileInput(name, "text/plain"), outcome, hasCallback) == UploadEffect(None, NotAnImageMessage)
  {
    PlainTextIsNotImage();
  }

  /** `handleRemoveImage(index)`: delete the record and renumber the rest. */
  function HandleRemoveImage(images: seq<ImageRecord>, index: int): (out: seq<ImageRecord>)
    requires 0 <= index < |images|
    ensures |out| == |images| - 1
    ensures Numbered(out)
    ensures Payloads(out) == RemoveAt(Payloads(images), index)
  {
    PayloadsRemoveAt(images, index);
    Renumber(RemoveAt(images, index))
  }

  /** Example: removing the first of [A, B, C] gives [B, C] ranked 1, 2. */
  lemma RemoveFirstExample(a: ImageRecord, b: ImageRecord, c: ImageRecord)
    ensures HandleRemoveImage([a, b, c], 0) == [b.(priority := 1), c.(priority := 2)]
  {
  }

  /** `handlePriorityChange(index, newPriority)`: do nothing unless
      1 <= newPriority <= N; otherwise take the record out, put it back at
      0-based position newPriority - 1 of what remains, and renumber. The
      index is only read once the range check has passed. */
  function HandlePriorityChange(images: seq<ImageRecord>, index: int, newPriority: int): (out: Option<seq<ImageRecord>>)
    requires 1 <= newPriority <= |images| ==> 0 <= index < |images|
    ensures out.None? <==> newPriority < 1 || newPriority > |images|
  {
    if newPriority < 1 || newPriority > |images| then
      None
    else
      Some(Renumber(InsertAt(RemoveAt(images, index), newPriority - 1, images[index])))
  }

  /** A rank change with a target in 1..N is a move: the same records in
      another order, the moved one at position newPriority - 1, the others in
      their old relative order, ranks 1..N by position. */
  lemma PriorityChangeMoves(images: seq<ImageRecord>, index: int, newPriority: int)
    requires 0 <= index < |images|
    requires 1 <= newPriority <= |images|
    ensures HandlePriorityChange(images, index, newPriority).Some?
    ensures var out := HandlePriorityChange(images, index, newPriority).value;
      |out| == |images| &&
      Numbered(out) &&
      multiset(Payloads(out)) == multiset(Payloads(images)) &&
      Payloads(out)[newPriority - 1] == PayloadOf(images[index]) &&
      RemoveAt(Payloads(out), newPriority - 1) == RemoveAt(Payloads(images), index)
  {
    var rest := RemoveAt(images, index);
    var moved := InsertAt(rest, newPriority - 1, images[index]);
    var out := HandlePriorityChange(images, index, newPriority).value;
    assert out == Renumber(moved);
    PayloadsInsertAt(rest, newPriority - 1, images[index]);
    PayloadsRemoveAt(images, index);
    assert Payloads(out) == InsertAt(RemoveAt(Payloads(images), index), newPriority - 1, PayloadOf(images[index]));
    assert PayloadOf(images[index]) == Payloads(images)[index];
    MoveIsPermutation(Payloads(images), index, newPriority - 1);
    RemoveInserted(RemoveAt(Payloads(images), index), newPriority - 1, PayloadOf(images[index]));
  }

  /** Example: in [A, B, C, D], moving C (index 2) to rank 1 gives [C, A, B, D]. */
  lemma MoveToFrontExample(a: ImageRecord, b: ImageRecord, c: ImageRecord, d: ImageRecord)
    ensures HandlePriorityChange([a, b, c, d], 2, 1) ==
      Some([c.(priority := 1), a.(priority := 2), b.(priority := 3), d.(priority := 4)])
  {
    assert RemoveAt([a, b, c, d], 2) == [a, b, d];
    assert InsertAt([a, b, d], 0, c) == [c, a, b, d];
    assert Renumber([c, a, b, d]) == [c.(priority := 1), a.(priority := 2), b.(priority := 3), d.(priority := 4)];
  }

  /** `movePriorityUp(index)`: nothing at the top, otherwise a rank change to
      the record's own current rank. */
  function MovePriorityUp(images: seq<ImageRecord>, index: int): (out: Option<seq<ImageRecord>>)
    requires 0 <= index < |images|
    ensures out.None? <==> index == 0
  {
    if index == 0 then None else HandlePriorityChange(images, index, index)
  }

  /** `movePriorityDown(index)`: nothing at the bottom, otherwise a rank
      change to the rank below. */
  function MovePriorityDown(images: seq<ImageRecord>, index: int): (out: Option<seq<ImageRecord>>)
    requires 0 <= index < |images|
    ensures out.None? <==> index == |images| - 1
  {
    if index == |images| - 1 then None else HandlePriorityChange(images, index, index + 2)
  }

  /** Below the top, moving up exchanges the record with its predecessor
      and renumbers. */
  lemma MoveUpSwaps(images: seq<ImageRecord>, index: int)
    requires 0 < index < |images|
    ensures MovePriorityUp(images, index) == Some(Renumber(Swap(images, index - 1, index)))
    ensures var out := MovePriorityUp(images, index).value;
      Numbered(out) && Payloads(out) == Swap(Payloads(images), index - 1, index)
  {
    MoveBackOneIsSwap(images, index);
    PayloadsSwap(images, index - 1, index);
  }

  /** Above the bottom, moving down exchanges the record with its successor
      and renumbers. */
  lemma MoveDownSwaps(images: seq<ImageRecord>, index: int)
    requires 0 <= index < |images| - 1
    ensures MovePriorityDown(images, index) == Some(Renumber(Swap(images, index, index + 1)))
    ensures var out := MovePriorityDown(images, index).value;
      Numbered(out) && Payloads(out) == Swap(Payloads(images), index, index + 1)
  {
    MoveForwardOneIsSwap(images, index);
    PayloadsSwap(images, index, index + 1);
  }

  /** Example: moving B up in [A, B, C] gives [B, A, C]. */
  lemma MoveUpExample(a: ImageRecord, b: ImageRecord, c: ImageRecord)
    ensures MovePriorityUp([a, b, c], 1) ==
      Some([b.(priority := 1), a.(priority := 2), c.(priority := 3)])
  {
    MoveUpSwaps([a, b, c], 1);
    assert Swap([a, b, c], 0, 1) == [b, a, c];
    assert Renumber([b, a, c]) == [b.(priority := 1), a.(priority := 2), c.(priority := 3)];
  }

  /** `handleTitleChange(index, title)`: the one record takes the new title. */
  function HandleTitleChange(images: seq<ImageRecord>, index: int, title: string): (out: seq<ImageRecord>)
    requires 0 <= index < |images|
    ensures |out| == |images|
    ensures out[index].title == title
    ensures out[index].url == images[index].url
    ensures out[index].description == images[index].description
    ensures out[index].priority == images[index].priority
    ensures forall j :: 0 <= j < |images| && j != index ==> out[j] == images[j]
    ensures Numbered(images) ==> Numbered(out)
  {
    images[index := images[index].(title := title)]
  }

  /** `handleDescriptionChange(index, description)`: the one record takes
      the new description. */
  function HandleDescriptionChange(images: seq<ImageRecord>, index: int, description: string): (out: seq<ImageRecord>)
    requires 0 <= index < |images|
    ensures |out| == |images|
    ensures out[index].description == description
    ensures out[index].url == images[index].url
    ensures out[index].title == images[index].title
    ensures out[index].priority == images[index].priority
    ensures forall j :: 0 <= j < |images| && j != index ==> out[j] == images[j]
    ensures Numbered(images) ==> Numbered(out)
  {
    images[index := images[index].(description := description)]
  }

  /** Re-emitting a field with the value it already has changes nothing, so
      the host may replay the last emitted list safely. */
  lemma EditIdempotent(images: seq<ImageRecord>, index: int)
    requires 0 <= index < |images|
    ensures HandleTitleChange(images, index, images[index].title) == images
    ensures HandleDescriptionChange(images, index, images[index].description) == images
  {
  }
}
