/** Image entries of the lion gallery: the entry record, the curated catalog,
    the mapping from picked files to pending entries, and the caption merge
    performed by the caption modal when the user saves. */
module Entries {

  datatype Option<+T> = None | Some(value: T)

  /** Entry identity. Curated entries carry 1 to 4; an uploaded entry gets an
      id supplied by the caller (the component draws it from the clock and a
      random fraction), which must be fresh. */
  type Id = int

  /** A file handle as delivered by the file picker or the drop target;
      `handle` stands for the identity of the browser's file object. */
  datatype FileHandle = FileHandle(name: string, handle: nat)

  /** Where an image is loaded from: a static path of the site, or the
      object URL minted for a picked file (an opaque reference to it). */
  datatype Source = Path(path: string) | ObjectUrl(file: FileHandle)

  /** The category an entry belongs to. */
  datatype Tag = Male | Female | Pride | Art | Uploaded

  /** One displayable photo. Curated entries have no caption, no file and no
      upload flag; they are represented with "", None and false. */
  datatype Entry = Entry(
    id: Id,
    src: Source,
    alt: string,
    title: string,
    category: Tag,
    description: string,
    file: Option<FileHandle>,
    isUploaded: bool,
    caption: string)

  const DefaultDescription: string := "Your uploaded lion photo!"
  const UploadedAltPrefix: string := "Uploaded lion photo: "

  /** The four curated photos, in display order. */
  const Curated: seq<Entry> := [
    Entry(1, Path("/4a7fad1e-f259-4832-8ade-ce7f370fe155.jpg"),
      "Majestic male lion with golden mane in natural habitat",
      "King of the Savanna", Male,
      "A powerful male lion displaying his magnificent mane, symbol of strength and dominance in the pride.",
      None, false, ""),
    Entry(2, Path("/5b3ef39f-ff2d-47bf-9eb7-e192eb2f4264.jpg"),
      "Lion pride resting together in the African wilderness",
      "Pride Unity", Pride,
      "Lions demonstrating their social nature, resting together as a family unit in their natural environment.",
      None, false, ""),
    Entry(3, Path("/5e27f160-d563-4bb3-a6c2-78e5ce21523a.jpg"),
      "Lioness hunting in the golden grasslands",
      "The Hunter", Female,
      "A focused lioness showcasing the grace and power that makes her an apex predator.",
      None, false, ""),
    Entry(4, Path("/img.png"),
      "Lion in artistic representation",
      "Artistic Vision", Art,
      "An artistic interpretation capturing the essence and spirit of these magnificent creatures.",
      None, false, "")
  ]

  /** The ids of a sequence of entries, in order. */
  function Ids(s: seq<Entry>): seq<Id> {
    seq(|s|, i requires 0 <= i < |s| => s[i].id)
  }

  /** No two entries share an id. */
  predicate DistinctIds(s: seq<Entry>) {
    forall i, j :: 0 <= i < j < |s| ==> s[i].id != s[j].id
  }

  /** `ids` are pairwise distinct and none of them is already used in `taken`. */
  predicate FreshIds(ids: seq<Id>, taken: seq<Entry>) {
    (forall i, j :: 0 <= i < j < |ids| ==> ids[i] != ids[j]) &&
    (forall i, k :: 0 <= i < |ids| && 0 <= k < |taken| ==> ids[i] != taken[k].id)
  }

  /** An entry as the upload pipeline creates it: in the `Uploaded` category and flagged as uploaded. */
  predicate IsUploadedEntry(e: Entry) {
    e.category == Uploaded && e.isUploaded
  }

  /** The pending entry created for one picked file. */
  function NewEntry(file: FileHandle, id: Id): Entry {
    Entry(id, ObjectUrl(file), UploadedAltPrefix + file.name, file.name, Uploaded,
          DefaultDescription, Some(file), true, "")
  }

  /** The pending batch for a list of picked files: one entry per file, in
      file order, each with the id supplied for it. */
  function NewEntries(files: seq<FileHandle>, ids: seq<Id>): (r: seq<Entry>)
    requires |ids| == |files|
    ensures |r| == |files| && Ids(r) == ids
    ensures forall i :: 0 <= i < |r| ==>
      r[i].title == files[i].name && r[i].alt == UploadedAltPrefix + files[i].name &&
      r[i].src == ObjectUrl(files[i]) && r[i].file == Some(files[i]) &&
      r[i].caption == "" && r[i].description == DefaultDescription &&
      IsUploadedEntry(r[i])
  {
    seq(|files|, i requires 0 <= i < |files| => NewEntry(files[i], ids[i]))
  }

  /** Adding a batch built from fresh ids to a catalog with distinct ids
      keeps the ids distinct. */
  lemma IngestKeepsIdsDistinct(taken: seq<Entry>, files: seq<FileHandle>, ids: seq<Id>)
    requires |ids| == |files|
    requires DistinctIds(taken) && FreshIds(ids, taken)
    ensures DistinctIds(taken + NewEntries(files, ids))
  {
    var batch := NewEntries(files, ids);
    var s := taken + batch;
    forall i, j | 0 <= i < j < |s| ensures s[i].id != s[j].id {
      if j < |taken| {
      } else if i < |taken| {
        assert s[j].id == ids[j - |taken|];
      } else {
        assert s[i].id == ids[i - |taken|] && s[j].id == ids[j - |taken|];
      }
    }
  }

  /** The state of the caption modal when it opens: an empty text per pending id. */
  function InitialCaptions(images: seq<Entry>): (m: map<Id, string>)
    ensures forall id :: id in m <==> id in Ids(images)
    ensures forall id :: id in m ==> m[id] == ""
  {
    map id | id in Ids(images) :: ""
  }

  /** `out` is `images` with only captions and descriptions rewritten:
      same length, same order, every other field (the id included) kept. */
  predicate Recaptioned(out: seq<Entry>, images: seq<Entry>) {
    |out| == |images| &&
    forall i :: 0 <= i < |out| ==>
      out[i] == images[i].(caption := out[i].caption, description := out[i].description)
  }

  /** The text typed for `id`, where a missing text reads as empty. */
  function CaptionText(captions: map<Id, string>, id: Id): string {
    if id in captions then captions[id] else ""
  }

  /** The modal's save: each image gets its typed text as caption, and as
      description unless the text is empty, in which case the description
      becomes the default one. */
  function CaptionedImages(images: seq<Entry>, captions: map<Id, string>): (r: seq<Entry>)
    ensures Recaptioned(r, images)
    ensures forall i :: 0 <= i < |r| ==> r[i].caption == CaptionText(captions, images[i].id)
    ensures forall i :: 0 <= i < |r| ==>
      r[i].description == (if r[i].caption == "" then DefaultDescription else r[i].caption)
  {
    seq(|images|, i requires 0 <= i < |images| =>
      var text := CaptionText(captions, images[i].id);
      images[i].(caption := text, description := if text != "" then text else DefaultDescription))
  }

  /** Recaptioning keeps the ids, hence their distinctness, and the upload flags. */
  lemma RecaptionedKeepsIds(out: seq<Entry>, images: seq<Entry>)
    requires Recaptioned(out, images)
    ensures Ids(out) == Ids(images)
    ensures forall i :: 0 <= i < |out| ==> IsUploadedEntry(out[i]) == IsUploadedEntry(images[i])
  {
  }

  /** Replacing a batch by a recaptioned copy after any prefix keeps the ids distinct. */
  lemma RecaptionedAppend(prefix: seq<Entry>, images: seq<Entry>, out: seq<Entry>)
    requires Recaptioned(out, images) && DistinctIds(prefix + images)
    ensures DistinctIds(prefix + out)
  {
    var before, after := prefix + images, prefix + out;
    forall i | 0 <= i < |after| ensures after[i].id == before[i].id {
      if i >= |prefix| {
        assert out[i - |prefix|].id == images[i - |prefix|].id;
      }
    }
  }

  /** Saving a freshly ingested batch without typing anything yields the
      batch unchanged, which is exactly what skipping does. */
  lemma {:induction false} UneditedSaveIsSkip(files: seq<FileHandle>, ids: seq<Id>)
    requires |ids| == |files|
    ensures CaptionedImages(NewEntries(files, ids), InitialCaptions(NewEntries(files, ids)))
            == NewEntries(files, ids)
  {
    var batch := NewEntries(files, ids);
    var out := CaptionedImages(batch, InitialCaptions(batch));
    forall i | 0 <= i < |batch| ensures out[i] == batch[i] {
      assert batch[i].id == Ids(batch)[i];
    }
  }

  /** Editing the text of one pending image changes the saved result of that
      image only. */
  lemma EditTouchesOneImage(images: seq<Entry>, captions: map<Id, string>, k: nat, text: string)
    requires DistinctIds(images) && k < |images|
    ensures var before := CaptionedImages(images, captions);
            var after := CaptionedImages(images, captions[images[k].id := text]);
            after[k].caption == text &&
            forall i :: 0 <= i < |images| && i != k ==> after[i] == before[i]
  {
  }
}
