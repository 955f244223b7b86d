# Lion gallery: a Dafny model

This project models the photo gallery component of the lion fan site
(`src/components/Gallery.jsx`) and proves properties about it. The model
covers these parts of the component:

- the four curated photos and the photos a visitor uploads;
- the six filter buttons with their counts, and the filtered grid;
- the upload pipeline. Files picked or dropped are staged as a pending
  batch, and the caption modal opens. The batch is then committed with
  captions, committed without captions, or discarded;
- removing an uploaded photo;
- the lightbox and its next and previous navigation with wrap-around, driven
  by buttons or by the Escape and arrow keys;
- the drag highlight and the set of grid positions whose entrance animation
  has started.

The model is split into four modules:

- `Entries` (`entries.dfy`) holds the entry record and the curated catalog.
  It also holds two pure mappings: from picked files to pending entries, and
  the caption modal's merge of typed texts into those entries.
- `Catalog` (`catalog.dfy`) holds the whole-catalog and filtered views, the
  button counts and removal by id. Everything in it is a pure function over
  the curated and uploaded lists, with lemmas about those functions.
- `Lightbox` (`lightbox.dfy`) holds the position lookup by id, one navigation
  step, repeated steps and the key bindings.
- `Gallery` (`gallery.dfy`) holds the component state. `GalleryState` is a
  class whose fields are the component's state variables, and each event
  handler is a method with `modifies this`. Every handler keeps the class
  invariant `Valid()`:
  - ids are distinct across the curated, uploaded and pending entries;
  - every uploaded or pending entry is one the upload pipeline made;
  - no curated entry is in the uploaded category;
  - the caption modal is open exactly while a batch is pending.

  `CaptionModal` is the modal's own state, which is the typed texts keyed by
  image id. Its save hands the merged batch to the gallery's commit.

JavaScript behaviour that the model states explicitly:

- `findIndex` gives -1 when the selected entry is not in the current view.
- `(i + 1) % 0` on an empty view is NaN, and reading outside a list gives
  `undefined`. Both read as `None`, which closes the lightbox.
- `captions[id] || ''` reads a missing or empty text as empty.

Where the test files and the component disagree, the model follows the
component:

- The "My Photos" button is always listed, with count 0 when nothing is
  uploaded. `Gallery.test.js` expects it to be absent then.
- The success banner is raised only when a batch is committed, by save or by
  skip. Staging a batch with the picker or a drop only opens the caption
  modal. Several tests expect the banner right after a drop or a pick.
- Nothing releases the object URLs made for uploads, so the model has no
  release obligation.

## Model

| member | source | states |
|---|---|---|
| Entries.NewEntries | src/components/Gallery.jsx:61-72 | One pending entry per picked file, in file order. Each entry gets the id supplied for it, the file name as title, the alt text prefix plus the name, the file's object URL and the file itself. Each gets an empty caption, the default description, and the uploaded category and flag. |
| Entries.IngestKeepsIdsDistinct | src/components/Gallery.jsx:61-74 | Staging a batch with fresh ids next to a catalog whose ids are distinct keeps all ids distinct. This stands in for the clock-and-random id. |
| Entries.InitialCaptions | src/components/Gallery.jsx:377-379 | The modal opens with exactly one key per pending id, and every value is empty. |
| Entries.CaptionedImages | src/components/Gallery.jsx:385-390 | Save keeps length, order and every field except caption and description. The caption is the typed text, or empty when nothing was typed. The description is that text, or the default description when the text is empty. |
| Entries.RecaptionedKeepsIds | src/components/Gallery.jsx:386-390 | The merge keeps every id and every upload flag. |
| Entries.RecaptionedAppend | src/components/Gallery.jsx:78-79 | Committing the merged batch after the existing uploads keeps ids distinct. |
| Entries.UneditedSaveIsSkip | src/components/Gallery.jsx:78-92 | Saving a freshly staged batch without typing commits exactly what skipping commits. |
| Entries.EditTouchesOneImage | src/components/Gallery.jsx:381-390 | Typing for one image changes that image's saved caption to the text and leaves every other saved image as it was. |
| Catalog.Matching | src/components/Gallery.jsx:132 | The category filter returns at most as many entries as its input, all of them in the category. |
| Catalog.MatchingMembers | src/components/Gallery.jsx:132 | An entry is kept by the category filter exactly when it is in the input and in the category. |
| Catalog.MatchingConcat | src/components/Gallery.jsx:132 | The filter distributes over concatenation, so it keeps the relative order of what it keeps. |
| Catalog.MatchingEvery | src/components/Gallery.jsx:132 | A list entirely in the category passes the filter unchanged. |
| Catalog.MatchingNone | src/components/Gallery.jsx:132 | A list with nothing in the category filters to empty. |
| Catalog.Filtered | src/components/Gallery.jsx:129-132 | The All view is the curated entries followed by the uploads. Any other view holds exactly the catalog entries of that category. |
| Catalog.FilteredSplits | src/components/Gallery.jsx:129-132 | A category view is that category's curated entries followed by its uploads, each part in its own order. |
| Catalog.Categories | src/components/Gallery.jsx:51-58 | Six buttons in the order All, Boys, Girls, Family, Art, My Photos. Each shows the count for its filter. My Photos is listed even at count 0. |
| Catalog.CountsMatchViews | src/components/Gallery.jsx:51-58 | As long as every upload, and no curated photo, is in the uploaded category (which the upload pipeline guarantees), every button's count equals the length of the view it selects. |
| Catalog.CountsAfterAppend | src/components/Gallery.jsx:52-57 | Committing a batch raises All and My Photos by the batch size and leaves the four curated counts unchanged. |
| Catalog.InitialCounts | src/components/Gallery.jsx:16-58 | With nothing uploaded, All shows 4, each curated category shows 1 and My Photos shows 0. |
| Catalog.Without | src/components/Gallery.jsx:125-127 | After removal no entry carries the removed id, and the list is no longer. |
| Catalog.WithoutMembers | src/components/Gallery.jsx:126 | An entry survives removal exactly when it was present under another id. |
| Catalog.WithoutAbsent | src/components/Gallery.jsx:126 | Removing an id that no entry carries changes nothing. |
| Catalog.WithoutAt | src/components/Gallery.jsx:126 | With distinct ids, removing the id at position k drops exactly that entry and keeps the rest in order. |
| Catalog.WithoutKeepsDistinct | src/components/Gallery.jsx:126 | Removal keeps ids distinct. |
| Catalog.MatchingKeepsDistinct | src/components/Gallery.jsx:132 | The category filter keeps ids distinct. |
| Catalog.FilteredDistinct | src/components/Gallery.jsx:129-132 | Every view of a catalog with distinct ids has distinct ids, so each grid entry sits at its own position for the lightbox. |
| Catalog.FilteredDistinctBeside | src/components/Gallery.jsx:129-132 | The grid has distinct ids whenever the curated, uploaded and pending entries together do, as the gallery's invariant keeps them. |
| Catalog.WithoutInContext | src/components/Gallery.jsx:126 | Removing from the uploads keeps ids distinct across curated, uploaded and pending entries. |
| Catalog.RemoveUploaded | src/components/Gallery.jsx:125-127 | Removing one upload keeps the others in order and lowers the All and My Photos counts by exactly one. |
| Lightbox.IndexOf | src/components/Gallery.jsx:167 | Gives the first position carrying the id, or -1 when no entry carries it. |
| Lightbox.IndexOfDistinct | src/components/Gallery.jsx:167 | With distinct ids, an entry's id leads back to its own position. |
| Lightbox.Navigate | src/components/Gallery.jsx:166-176 | A step's result, when there is one, is an entry of the current view. When the selection is in the view, a step always yields an entry. |
| Lightbox.NavigateSteps | src/components/Gallery.jsx:170-174 | From position k, next goes to k+1 and wraps from the last entry to the first. Previous goes to k-1 and wraps from the first entry to the last. |
| Lightbox.NavigateFrom | src/components/Gallery.jsx:170-174 | Next is at (k+1) mod n and previous at (k-1+n) mod n. |
| Lightbox.NavigateAnywhere | src/components/Gallery.jsx:166-176 | In a list with distinct ids, one step from wherever the selection sits lands at (k+1) mod n for next and (k-1+n) mod n for previous. |
| Lightbox.NextPrevInverse | src/components/Gallery.jsx:166-176 | Previous undoes next, and next undoes previous. |
| Lightbox.SingleEntry | src/components/Gallery.jsx:166-176 | In a one-entry view both directions keep the selection. |
| Lightbox.NavigateStale | src/components/Gallery.jsx:167-176 | When the selection is not in the view, next restarts at the first entry (or closes on an empty view) and previous closes the lightbox. |
| Lightbox.AdvanceFrom | src/components/Gallery.jsx:171 | k forward steps from position p land at (p+k) mod n, so n steps return to the start. |
| Lightbox.ThreeStepsFromThird | src/components/Gallery.jsx:171 | In a four-entry view, three next steps from the third entry show the second. |
| Lightbox.KeyPress | src/components/Gallery.jsx:180-186 | Keys do nothing while the lightbox is closed. Escape closes it. Any other key keeps the selection. An arrow's result, when there is one, is an entry of the view. |
| Gallery.GalleryState.constructor | src/components/Gallery.jsx:4-11 | Initial state: no uploads, nothing pending, All filter, nothing selected, and every flag and the reveal set cleared. |
| Gallery.GalleryState.HandleFiles | src/components/Gallery.jsx:61-76 | The pending batch becomes the mapped files and the caption modal opens. Uploads, the banner and every other field are unchanged. |
| Gallery.GalleryState.HandleDrag | src/components/Gallery.jsx:94-102 | Enter and over set the drag highlight, and leave clears it. Nothing else changes. |
| Gallery.GalleryState.HandleDrop | src/components/Gallery.jsx:104-112 | Every drop clears the highlight. A non-empty file list is staged. A missing or empty list leaves the rest of the state as it was. |
| Gallery.GalleryState.HandleChange | src/components/Gallery.jsx:114-119 | A non-empty pick is staged. A missing or empty pick changes nothing. |
| Gallery.GalleryState.AddCaptionsAndUpload | src/components/Gallery.jsx:78-84 | The recaptioned batch is appended after the existing uploads. Nothing remains pending, the modal closes and the banner is raised. |
| Gallery.GalleryState.SkipCaptionsAndUpload | src/components/Gallery.jsx:86-92 | The pending batch is appended as it is. Nothing remains pending, the modal closes and the banner is raised. |
| Gallery.GalleryState.CloseCaptionModal | src/components/Gallery.jsx:365-368 | The pending batch is discarded and the modal closes. Uploads and the banner are unchanged. |
| Gallery.GalleryState.ClearSuccess | src/components/Gallery.jsx:83 | Only the banner is lowered. |
| Gallery.GalleryState.RemoveUploadedImage | src/components/Gallery.jsx:125-127 | No upload with the id is left and the others keep their order. An absent id changes nothing, and nothing else changes. |
| Gallery.GalleryState.SelectFilter | src/components/Gallery.jsx:207-210 | The filter becomes the clicked one and the reveal set empties. |
| Gallery.GalleryState.RevealImage | src/components/Gallery.jsx:141 | The reveal set gains the position as a set union, so repeating it changes nothing. |
| Gallery.GalleryState.OpenLightbox | src/components/Gallery.jsx:156-159 | The clicked entry becomes the selection. |
| Gallery.GalleryState.CloseLightbox | src/components/Gallery.jsx:161-164 | The selection is cleared. |
| Gallery.GalleryState.NavigateImage | src/components/Gallery.jsx:166-177 | The selection becomes one navigation step in the current grid. It stays in the grid whenever it started there. From grid position k of n, next shows position (k+1) mod n and previous shows (k-1+n) mod n. |
| Gallery.GalleryState.HandleKeyPress | src/components/Gallery.jsx:179-186 | The selection follows the key bindings, and keys are inert while the lightbox is closed. |
| Gallery.CaptionModal.constructor | src/components/Gallery.jsx:376-379 | The modal opens with an empty text per pending image. |
| Gallery.CaptionModal.HandleCaptionChange | src/components/Gallery.jsx:381-383 | Typing replaces the text of that one image. |
| Gallery.CaptionModal.HandleSave | src/components/Gallery.jsx:385-392 | The gallery's uploads gain the captioned batch in order. Nothing remains pending, the modal closes and the banner is raised. The filter, the selection, the drag highlight and the reveal set are unchanged. |
| Gallery.UploadThenRemove | src/components/__tests__/Gallery.test.js:517-546 | Uploading one photo and removing it reads All 4, 5, 4 and My Photos 0, 1, 0. |
| Gallery.TwoUploadsOneRemoved | src/components/Gallery.jsx:51-58 | After a two-photo batch, All reads 6 and My Photos 2. After removing one, they read 5 and 1, and the My Photos view shows one photo. |
| Gallery.CancelBatch | src/components/Gallery.jsx:365-368 | Discarding a staged batch of three leaves All at 4, and none of the staged ids is in the catalog. |
| Gallery.EmptyDrops | src/components/__tests__/UploadFunctionality.test.js:285-313 | An empty or missing drop stages nothing, raises no banner and clears the highlight. Revealing the same position twice reveals it once. |

## Left out

- The IntersectionObserver and the staggered timeouts that feed the reveal
  set are not modelled. `RevealImage` is the update those timeouts perform.
- The three-second timer that lowers the success banner is not modelled.
  `ClearSuccess` is the state change it makes, as an explicit call.
- `URL.createObjectURL` is not modelled. An upload's source is an opaque
  `ObjectUrl(file)` reference.
- Upload ids come from `Date.now() + Math.random()`. The model passes them in
  as parameters that must be fresh against the catalog and pairwise distinct.
  Ids are unbounded integers rather than JavaScript numbers.
- Locking the page scroll while the lightbox is open is not modelled.
- The window key listener's registration and removal are not modelled.
  `HandleKeyPress` is the listener's body.
- Rendering, CSS classes, aria attributes and the other site components are
  not modelled.
- Gallery.GalleryState.HandleFiles: it requires a non-empty file list. The
  component only calls it from the drop and pick handlers after they have
  checked for a first file, and those handlers are modelled with their empty
  cases.
- Gallery.GalleryState.NavigateImage: it requires an open lightbox. In the
  component it is only reachable from the lightbox's buttons and from the key
  handler, which returns early while nothing is selected.
- Curated entries have no caption, file or upload flag in the component.
  The model gives them "", `None` and `false`.
