# Ordered image list editor of `MultipleImageUploader`

This project models the list-editing core of the React component
`MultipleImageUploader` in Dafny. The host form owns an ordered array of image
records `{url, title, description, priority}` and passes it to the component
as `images`. Every handler of the component reads that array, builds a new
one, and hands it back through `onImagesUpdate`. The host stores what it
receives and renders the component again with it.

The handlers modelled are:

- `uploadFile`: reject a file whose MIME type does not match `image.*`, upload
  it, and append a record ranked N + 1.
- `handleRemoveImage`: delete a record and renumber.
- `handlePriorityChange`: ignore a target rank outside 1..N, otherwise take the
  record out, reinsert it at the target position and renumber.
- `movePriorityUp` / `movePriorityDown`: defined through `handlePriorityChange`.
- `handleTitleChange` / `handleDescriptionChange`: replace one field of one
  record.

Each handler is a pure function from the rendered list (plus its arguments)
to the emitted list. A handler that returns without calling the callback
yields `None`. `Array.prototype.splice` is modelled by `Splice.RemoveAt` and
`Splice.InsertAt`, and the renumbering `map` by `ImageRecords.Renumber`.

The central invariant is `ImageRecords.Numbered`: the record at 0-based
position `i` has priority `i + 1`. Permutation and order properties are stated
on `Payloads`, the records with their `priority` dropped.

The Cloudinary request is not modelled. Its outcome is a parameter
(`Uploaded(secureUrl)` or `UploadFailed`), and so is whether the host supplied
a callback.

Modules:

- `Splice`: delete, insert and swap on sequences, with the facts that connect them.
- `ImageRecords`: the record type, the invariant and renumbering.
- `MultipleImageUploader`: the handlers and their properties.
- `EditingSession`: the host storing each emission; the invariant holds over any run of actions.
- `UploadBatch`: the multi-file upload loop, as written and as intended (see Findings).
- `Wrappers`: `Option`.

The component's `file.type.match('image.*')` turns the string into an
unanchored regular expression. Because `.*` may match the empty string, the
test passes exactly when "image" occurs anywhere in the MIME type. So
`application/x-image` passes as well as `image/png`.

The loop at lines 40-42 and 49-51 awaits each upload in order, evidently so
that the files are ranked N + 1, N + 2, and so on. But every upload appends
to the same list, captured when the component first rendered, so only the
last successful file survives (see Findings). The same capture makes every
later upload rebuild from that first list.

## Model

| member | source | states |
|---|---|---|
| Splice.RemoveAt | src/components/form/input/MultipleImageUploader.jsx:108 | `splice(index, 1)`: one element fewer; elements before `index` stay put and later ones shift down by one |
| Splice.InsertAt | src/components/form/input/MultipleImageUploader.jsx:129 | `splice(i, 0, x)`: one element more; `x` sits at `i`; earlier elements stay put and later ones shift up by one |
| Splice.MoveIsPermutation | src/components/form/input/MultipleImageUploader.jsx:126-129 | removing an element and reinserting it at any position gives the same multiset |
| Splice.RemoveInserted | src/components/form/input/MultipleImageUploader.jsx:126-129 | deleting what was just inserted at a position gives back the sequence |
| Splice.MoveBackOneIsSwap | src/components/form/input/MultipleImageUploader.jsx:152-155 | removing element `i` and reinserting it at `i - 1` swaps it with its predecessor |
| Splice.MoveForwardOneIsSwap | src/components/form/input/MultipleImageUploader.jsx:157-160 | removing element `i` and reinserting it at `i + 1` swaps it with its successor |
| ImageRecords.Renumber | src/components/form/input/MultipleImageUploader.jsx:111-114 | the renumbering `map` keeps length and every url, title and description, and the result satisfies the invariant |
| ImageRecords.RenumberNumbered | src/components/form/input/MultipleImageUploader.jsx:132-135 | renumbering a list that already satisfies the invariant returns it unchanged |
| ImageRecords.NumberedPriorities | src/components/form/input/MultipleImageUploader.jsx:111-114 | under the invariant the set of priorities is exactly 1..N, and priority order is list order |
| MultipleImageUploader.SubstringMakesImageType | src/components/form/input/MultipleImageUploader.jsx:57 | an occurrence of "image" anywhere in the MIME type passes the type test |
| MultipleImageUploader.ImageTypeHasSubstring | src/components/form/input/MultipleImageUploader.jsx:57 | a MIME type that passes the test contains "image" at some position |
| MultipleImageUploader.IsImageTypeMeansSubstring | src/components/form/input/MultipleImageUploader.jsx:57 | the type test holds if and only if "image" occurs in the MIME type |
| MultipleImageUploader.PngIsImage | src/components/form/input/MultipleImageUploader.jsx:57 | `image/png` passes the type test |
| MultipleImageUploader.PlainTextIsNotImage | src/components/form/input/MultipleImageUploader.jsx:57 | `text/plain` fails the type test |
| MultipleImageUploader.UnanchoredMatch | src/components/form/input/MultipleImageUploader.jsx:57 | `application/x-image` passes, because the match is not anchored |
| MultipleImageUploader.IsImageType | src/components/form/input/MultipleImageUploader.jsx:57 | a MIME type shorter than five characters fails the test, and one starting with "image" passes it; the full characterisation is `IsImageTypeMeansSubstring` |
| MultipleImageUploader.NewImage | src/components/form/input/MultipleImageUploader.jsx:87-92 | the new record carries the returned url, the file name as title, an empty description and priority N + 1, so appending it to a list with the invariant keeps the invariant |
| MultipleImageUploader.UploadFile | src/components/form/input/MultipleImageUploader.jsx:55-104 | a non-image file emits nothing and shows "Please select an image file"; a failed upload emits nothing and shows the failure message; a list is emitted exactly when the file is an image, the upload succeeded and a callback is set; the error is cleared whenever an image file uploads, with or without a callback |
| MultipleImageUploader.UploadAppends | src/components/form/input/MultipleImageUploader.jsx:87-96 | a successful upload emits the old list plus one record at the end: returned url, file name as title, empty description, priority N + 1; the invariant is kept |
| MultipleImageUploader.PlainTextRejected | src/components/form/input/MultipleImageUploader.jsx:57-60 | a `text/plain` file emits nothing and shows the validation message, whatever the upload outcome and whether or not a callback is set |
| MultipleImageUploader.HandleRemoveImage | src/components/form/input/MultipleImageUploader.jsx:106-117 | removal emits N - 1 records; their url, title and description are the input's with the one at `index` deleted; priorities equal position + 1 |
| MultipleImageUploader.RemoveFirstExample | src/components/form/input/MultipleImageUploader.jsx:106-116 | removing index 0 of [A, B, C] gives [B, C] ranked 1, 2 |
| MultipleImageUploader.HandlePriorityChange | src/components/form/input/MultipleImageUploader.jsx:119-138 | nothing is emitted if and only if the target rank is below 1 or above N |
| MultipleImageUploader.PriorityChangeMoves | src/components/form/input/MultipleImageUploader.jsx:122-137 | for a rank in 1..N the result is a permutation of the input's records, ignoring priority; the moved record is at newPriority - 1; the others keep their relative order; ranks are 1..N by position |
| MultipleImageUploader.MoveToFrontExample | src/components/form/input/MultipleImageUploader.jsx:119-138 | moving C (index 2) of [A, B, C, D] to rank 1 gives [C, A, B, D] ranked 1..4 |
| MultipleImageUploader.MovePriorityUp | src/components/form/input/MultipleImageUploader.jsx:152-155 | moving up emits nothing if and only if the record is at the top |
| MultipleImageUploader.MovePriorityDown | src/components/form/input/MultipleImageUploader.jsx:157-160 | moving down emits nothing if and only if the record is at the bottom |
| MultipleImageUploader.MoveUpSwaps | src/components/form/input/MultipleImageUploader.jsx:152-155 | below the top, moving up swaps records i - 1 and i and renumbers |
| MultipleImageUploader.MoveDownSwaps | src/components/form/input/MultipleImageUploader.jsx:157-160 | above the bottom, moving down swaps records i and i + 1 and renumbers |
| MultipleImageUploader.MoveUpExample | src/components/form/input/MultipleImageUploader.jsx:152-155 | moving B up in [A, B, C] gives [B, A, C] |
| MultipleImageUploader.HandleTitleChange | src/components/form/input/MultipleImageUploader.jsx:140-144 | length is unchanged; the record at `index` takes the new title and keeps its url, description and priority; every other record is identical; the invariant is kept |
| MultipleImageUploader.HandleDescriptionChange | src/components/form/input/MultipleImageUploader.jsx:146-150 | length is unchanged; the record at `index` takes the new description and keeps its url, title and priority; every other record is identical; the invariant is kept |
| MultipleImageUploader.EditIdempotent | src/components/form/input/MultipleImageUploader.jsx:140-150 | editing a field to the value it already has emits the list unchanged |
| EditingSession.StepKeepsInvariant | src/components/form/input/MultipleImageUploader.jsx:94-150 | any single action, with the host storing what was emitted, keeps the invariant |
| EditingSession.ReplayKeepsInvariant | src/components/form/input/MultipleImageUploader.jsx:94-150 | from a list with the invariant, every run of actions ends in a list with the invariant |
| EditingSession.ReorderingRepairs | src/components/form/input/MultipleImageUploader.jsx:106-138 | a remove or an emitted rank change yields the invariant whatever ranks the input carried |
| UploadBatch.LastEmission | src/components/form/input/MultipleImageUploader.jsx:33-53 | as written, the last list a batch emits is the captured list plus exactly one new record |
| UploadBatch.LastEmissionKeepsLastAccepted | src/components/form/input/MultipleImageUploader.jsx:33-53 | as written, a batch emits a list if and only if at least one file passes the type test and uploads; the one new record in it is the last such file, ranked N + 1 |
| UploadBatch.DropAsWritten | src/components/form/input/MultipleImageUploader.jsx:40-42 | the loop over the dropped files, as written, ends with the last emission of uploads built from the captured list |
| UploadBatch.DropLosesEarlierUploads | src/components/form/input/MultipleImageUploader.jsx:40-42 | as written, dropping two image files that both upload leaves only the second, ranked N + 1 |
| UploadBatch.UploadSequential | src/components/form/input/MultipleImageUploader.jsx:49-51 | the intended loop, with each upload reading the current list, computes the intended batch result |
| UploadBatch.SequentialAppendsInOrder | src/components/form/input/MultipleImageUploader.jsx:49-51 | intended batch: the old list is a prefix; the accepted files follow in order; each new record's priority is its position + 1 |
| UploadBatch.SequentialKeepsInvariant | src/components/form/input/MultipleImageUploader.jsx:49-51 | the intended batch keeps the invariant |
| UploadBatch.SequentialOneFile | src/components/form/input/MultipleImageUploader.jsx:87-96 | one accepted file is appended with priority N + 1 |
| UploadBatch.SequentialTwoFiles | src/components/form/input/MultipleImageUploader.jsx:40-42 | intended batch: two accepted files get priorities N + 1 and N + 2, in drop order |

## Left out

- The Cloudinary request and the `FormData` it sends (lines 67-84) are network I/O. Only their outcome is modelled: a `secure_url` or a failure. A success response without `secure_url` is not distinguished.
- The React state flags `isDragging`, `isUploading` and `error` are not modelled as state. The drag handlers are left out too. The error message that `uploadFile` leaves is part of `UploadEffect`; `console.error` is left out.
- The JSX and the buttons shown depending on priority (lines 162-334) are rendering, not list logic. The buttons are not modelled.
- Out-of-range indices to `handleRemoveImage`, `handlePriorityChange`, the move handlers and the edit handlers are excluded by preconditions. The UI only passes indices of rendered records. In JavaScript such calls do other things, which the model does not capture:
  - An index of N or more: `splice(index, 1)` at line 108 deletes nothing. `handlePriorityChange` inserts `undefined` (lines 123-129), which the renumbering at lines 132-135 turns into a record holding only a priority. The edits at lines 142 and 148 add an entry at that index, leaving holes when it is past N.
  - A negative index: `splice` counts from the end, so `handleRemoveImage(-1)` deletes the last record (line 108). `handlePriorityChange(-1, p)` also deletes the last record, then inserts `undefined` at position p - 1 (line 129), which the renumbering at lines 132-135 turns into a record holding only a priority. The edits at lines 142 and 148 set a property named after the index, which is not an array element, so the emitted list is unchanged as a sequence.
- Apart from `uploadFile`, the handlers call `onImagesUpdate` without checking it. A missing callback there would throw; the model assumes the host supplies one.
- Priorities and indices are unbounded integers. JavaScript numbers that are not integers, or that exceed 2^53, are not modelled.
- `EditingSession` takes each upload to read the list currently rendered, which is the intended behaviour. As written, the memoised handlers keep reading the list from the first render; `UploadBatch` shows what that does to one batch.
- `EditingSession` treats an upload as one atomic step. In the source, a remove, reorder or edit can run while `uploadFile` awaits the upload (lines 72 and 84), and the upload's later emission at line 96 then overwrites that change. Such interleavings are not modelled.
- `UploadBatch` assumes the host supplies a callback. It does not model the error and busy flags between uploads.
- `src/app/api/posts/route.js` and `src/app/api/posts/slug/[slug]/route.js` are thin HTTP wrappers over a data layer that is not part of this model. `src/components/ui/avatar/Avatar.jsx` is presentational.

## Findings

| source | as written | input that shows it | evidently intended | confidence | as-written member | corrected member |
|---|---|---|---|---|---|---|
| src/components/form/input/MultipleImageUploader.jsx:33-53 | `handleDrop` and `handleFileChange` are memoised with an empty dependency list. They call the first render's `uploadFile`, which reads that render's `images`, so every upload in a batch appends to the same captured list and each emission replaces the previous one. | Drop two image files onto a list of N records, both uploads succeed. The host ends with N + 1 records: the first file is lost and the second is ranked N + 1 (`DropLosesEarlierUploads`). In general only the last accepted file of a batch survives (`LastEmissionKeepsLastAccepted`). | Each upload appends to the list the previous one produced, giving N + 2 records with the files ranked N + 1 and N + 2 in drop order (`SequentialTwoFiles`, `SequentialAppendsInOrder`). | not executed; high for any batch with two or more accepted files | UploadBatch.DropAsWritten | UploadBatch.UploadSequential |
