/** The gallery component's state and its event handlers: file ingestion from
    the picker or the drop target, the caption modal's save, skip and close,
    removal of an uploaded photo, the filter buttons, the reveal set, the
    drag highlight and the lightbox. Each handler is a method that updates
    the component's fields in place. */
module Gallery {
  import opened Entries
  import opened Catalog
  import opened Lightbox

  /** The drag events the upload area listens to (besides drop). */
  datatype DragKind = DragEnter | DragOver | DragLeave

  class GalleryState {
    /** The curated photos; fixed for the component's lifetime. */
    const curated: seq<Entry>
    var uploaded: seq<Entry>
    var pending: seq<Entry>
    var filter: Filter
    var selected: Option<Entry>
    var dragActive: bool
    var showSuccess: bool
    var showCaptionModal: bool
    /** Grid positions whose entrance animation has been triggered. */
    var visible: set<nat>

    /** Ids are distinct across curated, uploaded and pending entries; every
        uploaded or pending entry is one the upload pipeline made; the caption modal
        is open exactly while a batch is pending. */
    ghost predicate Valid()
      reads this
    {
      DistinctIds(curated + uploaded + pending) &&
      CuratedOnly(curated) && AllUploaded(uploaded) && AllUploaded(pending) &&
      showCaptionModal == (pending != [])
    }

    /** The grid's current contents. */
    function FilteredImages(): seq<Entry>
      reads this
    {
      Filtered(curated, uploaded, filter)
    }

    constructor ()
      ensures Valid()
      ensures curated == Curated && uploaded == [] && pending == [] && filter == All
      ensures selected == None && !dragActive && !showSuccess && !showCaptionModal && visible == {}
    {
      curated := Curated;
      uploaded := [];
      pending := [];
      filter := All;
      selected := None;
      dragActive := false;
      showSuccess := false;
      showCaptionModal := false;
      visible := {};
    }

    /** Stage a non-empty list of picked files as the pending batch and open
        the caption modal; nothing is added to the catalog yet. */
    method HandleFiles(files: seq<FileHandle>, ids: seq<Id>)
      requires Valid()
      requires files != [] && |ids| == |files| && FreshIds(ids, curated + uploaded)
      modifies this
      ensures Valid()
      ensures pending == NewEntries(files, ids) && showCaptionModal
      ensures uploaded == old(uploaded) && showSuccess == old(showSuccess)
      ensures filter == old(filter) && selected == old(selected)
      ensures dragActive == old(dragActive) && visible == old(visible)
    {
      DistinctConcat(curated + uploaded, pending);
      IngestKeepsIdsDistinct(curated + uploaded, files, ids);
      pending := NewEntries(files, ids);
      showCaptionModal := true;
    }

    /** Drag over the upload area: entering or moving over it highlights the
        area, leaving it removes the highlight. */
    method HandleDrag(kind: DragKind)
      requires Valid()
      modifies this
      ensures Valid()
      ensures dragActive == (kind != DragLeave)
      ensures uploaded == old(uploaded) && pending == old(pending)
      ensures showCaptionModal == old(showCaptionModal) && showSuccess == old(showSuccess)
      ensures filter == old(filter) && selected == old(selected) && visible == old(visible)
    {
      if kind == DragEnter || kind == DragOver {
        dragActive := true;
      } else if kind == DragLeave {
        dragActive := false;
      }
    }

    /** A drop always clears the highlight; only a present, non-empty file
        list is staged, and anything else changes nothing more. */
    method HandleDrop(files: Option<seq<FileHandle>>, ids: seq<Id>)
      requires Valid()
      requires files.Some? ==> |ids| == |files.value|
      requires FreshIds(ids, curated + uploaded)
      modifies this
      ensures Valid()
      ensures !dragActive
      ensures if files.Some? && files.value != [] then
                pending == NewEntries(files.value, ids) && showCaptionModal
              else
                pending == old(pending) && showCaptionModal == old(showCaptionModal)
      ensures uploaded == old(uploaded) && showSuccess == old(showSuccess)
      ensures filter == old(filter) && selected == old(selected) && visible == old(visible)
    {
      dragActive := false;
      if files.Some? && files.value != [] {
        HandleFiles(files.value, ids);
      }
    }

    /** A selection in the file picker: only a present, non-empty file list
        is staged. */
    method HandleChange(files: Option<seq<FileHandle>>, ids: seq<Id>)
      requires Valid()
      requires files.Some? ==> |ids| == |files.value|
      requires FreshIds(ids, curated + uploaded)
      modifies this
      ensures Valid()
      ensures if files.Some? && files.value != [] then
                pending == NewEntries(files.value, ids) && showCaptionModal
              else
                pending == old(pending) && showCaptionModal == old(showCaptionModal)
      ensures uploaded == old(uploaded) && showSuccess == old(showSuccess)
      ensures dragActive == old(dragActive)
      ensures filter == old(filter) && selected == old(selected) && visible == old(visible)
    {
      if files.Some? && files.value != [] {
        HandleFiles(files.value, ids);
      }
    }

    /** Commit the captioned batch: append it to the uploads, clear the
        pending batch, close the modal and raise the success flag. */
    method AddCaptionsAndUpload(withCaptions: seq<Entry>)
      requires Valid() && Recaptioned(withCaptions, pending)
      modifies this
      ensures Valid()
      ensures uploaded == old(uploaded) + withCaptions && |uploaded| == |old(uploaded)| + |old(pending)|
      ensures pending == [] && !showCaptionModal && showSuccess
      ensures dragActive == old(dragActive)
      ensures filter == old(filter) && selected == old(selected) && visible == old(visible)
    {
      RecaptionedKeepsIds(withCaptions, pending);
      RecaptionedAppend(curated + uploaded, pending, withCaptions);
      assert AllUploaded(withCaptions);
      uploaded := uploaded + withCaptions;
      assert curated + uploaded + [] == old(curated + uploaded) + withCaptions;
      pending := [];
      showCaptionModal := false;
      showSuccess := true;
    }

    /** Commit the pending batch as it is. */
    method SkipCaptionsAndUpload()
      requires Valid()
      modifies this
      ensures Valid()
      ensures uploaded == old(uploaded) + old(pending)
      ensures pending == [] && !showCaptionModal && showSuccess
      ensures dragActive == old(dragActive)
      ensures filter == old(filter) && selected == old(selected) && visible == old(visible)
    {
      assert curated + uploaded + pending == curated + (uploaded + pending);
      uploaded := uploaded + pending;
      assert curated + uploaded + [] == curated + uploaded;
      pending := [];
      showCaptionModal := false;
      showSuccess := true;
    }

    /** Close the caption modal without committing: the batch is dropped. */
    method CloseCaptionModal()
      requires Valid()
      modifies this
      ensures Valid()
      ensures pending == [] && !showCaptionModal
      ensures uploaded == old(uploaded) && showSuccess == old(showSuccess)
      ensures dragActive == old(dragActive)
      ensures filter == old(filter) && selected == old(selected) && visible == old(visible)
    {
      DistinctConcat(curated + uploaded, pending);
      assert curated + uploaded + [] == curated + uploaded;
      pending := [];
      showCaptionModal := false;
    }

    /** The success message's timer running out. */
    method ClearSuccess()
      requires Valid()
      modifies this
      ensures Valid()
      ensures !showSuccess
      ensures uploaded == old(uploaded) && pending == old(pending)
      ensures showCaptionModal == old(showCaptionModal) && dragActive == old(dragActive)
      ensures filter == old(filter) && selected == old(selected) && visible == old(visible)
    {
      showSuccess := false;
    }

    /** Remove the uploaded entries with the given id; an absent id is a no-op. */
    method RemoveUploadedImage(id: Id)
      requires Valid()
      modifies this
      ensures Valid()
      ensures uploaded == Without(old(uploaded), id)
      ensures forall i :: 0 <= i < |uploaded| ==> uploaded[i].id != id
      ensures (forall i :: 0 <= i < |old(uploaded)| ==> old(uploaded)[i].id != id) ==> uploaded == old(uploaded)
      ensures pending == old(pending) && showCaptionModal == old(showCaptionModal)
      ensures showSuccess == old(showSuccess) && dragActive == old(dragActive)
      ensures filter == old(filter) && selected == old(selected) && visible == old(visible)
    {
      WithoutInContext(curated, uploaded, pending, id);
      WithoutMembers(uploaded, id);
      if forall i :: 0 <= i < |uploaded| ==> uploaded[i].id != id {
        WithoutAbsent(uploaded, id);
      }
      var kept := Without(uploaded, id);
      forall i | 0 <= i < |kept| ensures IsUploadedEntry(kept[i]) {
        assert kept[i] in uploaded;
      }
      uploaded := kept;
    }

    /** A filter button click: select the category and restart the reveal animation. */
    method SelectFilter(f: Filter)
      requires Valid()
      modifies this
      ensures Valid()
      ensures filter == f && visible == {}
      ensures uploaded == old(uploaded) && pending == old(pending)
      ensures showCaptionModal == old(showCaptionModal) && showSuccess == old(showSuccess)
      ensures dragActive == old(dragActive) && selected == old(selected)
    {
      filter := f;
      visible := {};
    }

    /** A grid position reported as revealed joins the reveal set. */
    method RevealImage(index: nat)
      requires Valid()
      modifies this
      ensures Valid()
      ensures visible == old(visible) + {index}
      ensures uploaded == old(uploaded) && pending == old(pending) && filter == old(filter)
      ensures showCaptionModal == old(showCaptionModal) && showSuccess == old(showSuccess)
      ensures dragActive == old(dragActive) && selected == old(selected)
    {
      visible := visible + {index};
    }

    method OpenLightbox(image: Entry)
      requires Valid()
      modifies this
      ensures Valid()
      ensures selected == Some(image)
      ensures uploaded == old(uploaded) && pending == old(pending) && filter == old(filter)
      ensures showCaptionModal == old(showCaptionModal) && showSuccess == old(showSuccess)
      ensures dragActive == old(dragActive) && visible == old(visible)
    {
      selected := Some(image);
    }

    method CloseLightbox()
      requires Valid()
      modifies this
      ensures Valid()
      ensures selected == None
      ensures uploaded == old(uploaded) && pending == old(pending) && filter == old(filter)
      ensures showCaptionModal == old(showCaptionModal) && showSuccess == old(showSuccess)
      ensures dragActive == old(dragActive) && visible == old(visible)
    {
      selected := None;
    }

    /** One step through the filtered grid from the entry on show; an entry
        that is shown from the grid stays in the grid. */
    method NavigateImage(d: Direction)
      requires Valid() && selected.Some?
      modifies this
      ensures Valid()
      ensures selected == Navigate(FilteredImages(), old(selected).value, d)
      ensures old(selected).value in FilteredImages() ==>
                selected.Some? && selected.value in FilteredImages()
      ensures SteppedFrom(FilteredImages(), old(selected).value, d, selected)
      ensures uploaded == old(uploaded) && pending == old(pending) && filter == old(filter)
      ensures showCaptionModal == old(showCaptionModal) && showSuccess == old(showSuccess)
      ensures dragActive == old(dragActive) && visible == old(visible)
    {
      var grid := FilteredImages();
      FilteredDistinctBeside(curated, uploaded, pending, filter);
      if selected.value in grid {
        var k :| 0 <= k < |grid| && grid[k] == selected.value;
        assert grid[k].id == selected.value.id;
      }
      NavigateAnywhere(grid, selected.value, d);
      selected := Navigate(grid, selected.value, d);
    }

    /** A key press on the page: inert while the lightbox is closed. */
    method HandleKeyPress(key: Key)
      requires Valid()
      modifies this
      ensures Valid()
      ensures selected == KeyPress(FilteredImages(), old(selected), key)
      ensures old(selected) == None ==> selected == None
      ensures uploaded == old(uploaded) && pending == old(pending) && filter == old(filter)
      ensures showCaptionModal == old(showCaptionModal) && showSuccess == old(showSuccess)
      ensures dragActive == old(dragActive) && visible == old(visible)
    {
      selected := KeyPress(FilteredImages(), selected, key);
    }
  }

  /** The caption modal: the pending images it was opened with and the text
      typed for each of them. */
  class CaptionModal {
    const images: seq<Entry>
    var captions: map<Id, string>

    constructor (images: seq<Entry>)
      ensures this.images == images && captions == InitialCaptions(images)
    {
      this.images := images;
      captions := InitialCaptions(images);
    }

    /** Typing in the text area of one image. */
    method HandleCaptionChange(id: Id, caption: string)
      modifies this
      ensures captions == old(captions)[id := caption]
    {
      captions := captions[id := caption];
    }

    /** Save: hand the images with their captions to the gallery's commit. */
    method HandleSave(gallery: GalleryState)
      requires gallery.Valid() && images == gallery.pending
      modifies gallery
      ensures gallery.Valid()
      ensures gallery.uploaded == old(gallery.uploaded) + CaptionedImages(images, captions)
      ensures gallery.pending == [] && !gallery.showCaptionModal && gallery.showSuccess
      ensures gallery.dragActive == old(gallery.dragActive) && gallery.visible == old(gallery.visible)
      ensures gallery.filter == old(gallery.filter) && gallery.selected == old(gallery.selected)
    {
      gallery.AddCaptionsAndUpload(CaptionedImages(images, captions));
    }
  }

  /** Upload one photo, then remove it: the All count reads 4, 5, 4 and
      My Photos 0, 1, 0; the photo is staged first and the success flag is
      raised only when the batch is committed. */
  method UploadThenRemove(file: FileHandle, id: Id) returns (all: seq<nat>, mine: seq<nat>)
    requires id !in {1, 2, 3, 4}
    ensures all == [4, 5, 4] && mine == [0, 1, 0]
  {
    var g := new GalleryState();
    InitialCounts();
    all, mine := [CountFor(g.curated, g.uploaded, All)], [CountFor(g.curated, g.uploaded, Only(Uploaded))];
    g.HandleChange(Some([file]), [id]);
    assert g.uploaded == [] && g.showCaptionModal && !g.showSuccess;
    g.SkipCaptionsAndUpload();
    assert g.showSuccess && g.uploaded[0].id == id;
    all, mine := all + [CountFor(g.curated, g.uploaded, All)], mine + [CountFor(g.curated, g.uploaded, Only(Uploaded))];
    g.RemoveUploadedImage(id);
    assert g.uploaded == [];
    all, mine := all + [CountFor(g.curated, g.uploaded, All)], mine + [CountFor(g.curated, g.uploaded, Only(Uploaded))];
  }

  /** A fresh gallery after one drop of two files saved through the caption
      modal without typing. */
  method DropTwoAndSave(f1: FileHandle, f2: FileHandle, id1: Id, id2: Id) returns (g: GalleryState)
    requires id1 !in {1, 2, 3, 4} && id2 !in {1, 2, 3, 4} && id1 != id2
    ensures fresh(g) && g.Valid() && |g.curated| == 4 && g.pending == []
    ensures |g.uploaded| == 2 && g.uploaded[0].id == id1 && g.uploaded[1].id == id2
  {
    g := new GalleryState();
    InitialCounts();
    g.HandleDrop(Some([f1, f2]), [id1, id2]);
    var m := new CaptionModal(g.pending);
    m.HandleSave(g);
  }

  /** Upload two photos in one batch and remove one of them: All reads 6
      then 5, My Photos 2 then 1, and the My Photos view then shows one photo. */
  method TwoUploadsOneRemoved(f1: FileHandle, f2: FileHandle, id1: Id, id2: Id)
    returns (all: seq<nat>, mine: seq<nat>, shown: nat)
    requires id1 !in {1, 2, 3, 4} && id2 !in {1, 2, 3, 4} && id1 != id2
    ensures all == [6, 5] && mine == [2, 1] && shown == 1
  {
    var g := DropTwoAndSave(f1, f2, id1, id2);
    var all1, mine1 := |g.curated| + |g.uploaded|, |g.uploaded|;
    assert g.curated + g.uploaded + g.pending == g.curated + g.uploaded;
    DistinctConcat(g.curated, g.uploaded);
    RemoveUploaded(g.curated, g.uploaded, 0);
    g.RemoveUploadedImage(id1);
    var all2, mine2 := |g.curated| + |g.uploaded|, |g.uploaded|;
    all, mine := [all1, all2], [mine1, mine2];
    g.SelectFilter(Only(Uploaded));
    CountsMatchViews(g.curated, g.uploaded, g.filter);
    shown := |g.FilteredImages()|;
  }

  /** Cancelling a staged batch of three leaves the catalog as it was: All
      still reads 4 and none of the staged ids is in the catalog. */
  method CancelBatch(files: seq<FileHandle>, ids: seq<Id>)
    returns (before: nat, after: nat, catalogIds: seq<Id>)
    requires |files| == 3 && |ids| == 3
    requires forall i :: 0 <= i < 3 ==> ids[i] !in {1, 2, 3, 4}
    requires ids[0] != ids[1] && ids[0] != ids[2] && ids[1] != ids[2]
    ensures before == 4 && after == 4
    ensures forall i :: 0 <= i < |ids| ==> ids[i] !in catalogIds
  {
    var g := new GalleryState();
    before := CountFor(g.curated, g.uploaded, All);
    g.HandleChange(Some(files), ids);
    assert |g.pending| == 3;
    g.CloseCaptionModal();
    assert forall i :: 0 <= i < |g.curated + g.uploaded| ==> (g.curated + g.uploaded)[i].id !in ids;
    after := CountFor(g.curated, g.uploaded, All);
    catalogIds := Ids(AllImages(g.curated, g.uploaded));
  }

  /** An empty or a missing drop stages nothing and raises no success flag,
      and clears the drag highlight; reporting the same grid position twice
      reveals it once. */
  method EmptyDrops() returns (staged: bool, success: bool, highlighted: bool, revealed: set<nat>)
    ensures !staged && !success && !highlighted && revealed == {0}
  {
    var g := new GalleryState();
    g.HandleDrag(DragEnter);
    g.HandleDrop(Some([]), []);
    g.HandleDrop(None, []);
    staged, success, highlighted := g.showCaptionModal || g.pending != [], g.showSuccess, g.dragActive;
    g.RevealImage(0);
    g.RevealImage(0);
    revealed := g.visible;
  }
}
