/** The add-item form: its state cells, the handlers that replace them, and
    the multipart payload it submits. */
module AddItem {
  import opened Wrappers
  import UploadRules
  import ViewItems

  /** The choices of the type drop-down after its empty placeholder. */
  const ItemTypes: seq<string> :=
    ["Shirt", "Pant", "Shoes", "Sports Gear", "Accessories", "Electronics", "Books", "Home & Garden", "Other"]

  datatype FormFields = FormFields(name: string, itemType: string, description: string)

  /** The `name` attribute of the input that changed. */
  datatype Field = NameField | TypeField | DescriptionField

  function FieldValue(f: FormFields, field: Field): (v: string) {
    match field
    case NameField => f.name
    case TypeField => f.itemType
    case DescriptionField => f.description
  }

  /** `{ ...prev, [name]: value }`. */
  function SetField(f: FormFields, field: Field, value: string): (g: FormFields) {
    match field
    case NameField => f.(name := value)
    case TypeField => f.(itemType := value)
    case DescriptionField => f.(description := value)
  }

  /** A file picked in the browser; `dataUrl` is what reading it as a data
      URL yields. */
  datatype File = File(name: string, mimetype: string, dataUrl: string)

  datatype EntryValue = Text(text: string) | Blob(file: File)

  /** One `append` to the FormData. */
  datatype Entry = Entry(key: string, value: EntryValue)

  const EmptyForm: FormFields := FormFields("", "", "")

  /** The previews of the picked files, one data URL per file. */
  function DataUrls(files: seq<File>): (urls: seq<string>) {
    seq(|files|, i requires 0 <= i < |files| => files[i].dataUrl)
  }

  /** `s.filter((_, i) => i !== index)`, positions counted from `from`. */
  function KeepOthers<T>(s: seq<T>, index: int, from: int): (r: seq<T>)
    decreases |s|
  {
    if s == [] then []
    else (if from == index then [] else [s[0]]) + KeepOthers(s[1..], index, from + 1)
  }

  function RemoveAt<T>(s: seq<T>, index: int): (r: seq<T>) {
    KeepOthers(s, index, 0)
  }

  /** `additionalImages.forEach(image => submitData.append('images', image))`. */
  function ImageEntries(images: seq<File>): (es: seq<Entry>) {
    seq(|images|, k requires 0 <= k < |images| => Entry(UploadRules.ImagesField, Blob(images[k])))
  }

  /** Previews of two selections picked one after the other are the
      previews of the first followed by those of the second. */
  lemma DataUrlsAppend(a: seq<File>, b: seq<File>)
    ensures DataUrls(a + b) == DataUrls(a) + DataUrls(b)
  {
    forall i | 0 <= i < |a| + |b| ensures DataUrls(a + b)[i] == (DataUrls(a) + DataUrls(b))[i] {
      if i < |a| { assert (a + b)[i] == a[i]; } else { assert (a + b)[i] == b[i - |a|]; }
    }
  }

  /** The `images` entries of two lists of files, one after the other. */
  lemma ImageEntriesAppend(a: seq<File>, b: seq<File>)
    ensures ImageEntries(a + b) == ImageEntries(a) + ImageEntries(b)
  {
    forall i | 0 <= i < |a| + |b| ensures ImageEntries(a + b)[i] == (ImageEntries(a) + ImageEntries(b))[i] {
      if i < |a| { assert (a + b)[i] == a[i]; } else { assert (a + b)[i] == b[i - |a|]; }
    }
  }

  /** The FormData the form sends: the three text fields, the cover, then
      the additional images. */
  function Payload(f: FormFields, cover: File, images: seq<File>): (entries: seq<Entry>) {
    [Entry("name", Text(f.name)), Entry("type", Text(f.itemType)), Entry("description", Text(f.description)),
     Entry(UploadRules.CoverField, Blob(cover))] + ImageEntries(images)
  }

  /** The files sent under `key`, in order. */
  function FilesUnder(entries: seq<Entry>, key: string): (files: seq<File>)
    decreases |entries|
  {
    if entries == [] then []
    else
      (if entries[0].key == key && entries[0].value.Blob? then [entries[0].value.file] else []) +
      FilesUnder(entries[1..], key)
  }

  /** The submit handler's gate. */
  predicate CanSubmit(f: FormFields, cover: Option<File>) {
    f.name != "" && f.itemType != "" && f.description != "" && cover.Some?
  }

  class AddItemForm {
    var loading: bool
    var formData: FormFields
    var coverImage: Option<File>
    var additionalImages: seq<File>
    var coverImagePreview: string
    var additionalImagePreviews: seq<string>
    /** The payloads handed to the create request, in order. */
    var requests: seq<seq<Entry>>

    /** Every picked file has its preview, position for position. */
    predicate Valid()
      reads this
    {
      coverImagePreview == (if coverImage.Some? then coverImage.value.dataUrl else "") &&
      additionalImagePreviews == DataUrls(additionalImages)
    }

    constructor ()
      ensures Valid() && !loading && formData == EmptyForm && coverImage == None
      ensures additionalImages == [] && requests == []
    {
      loading := false;
      formData := EmptyForm;
      coverImage := None;
      additionalImages := [];
      coverImagePreview := "";
      additionalImagePreviews := [];
      requests := [];
    }

    method HandleInputChange(field: Field, value: string)
      modifies this
      ensures formData == SetField(old(formData), field, value)
      ensures coverImage == old(coverImage) && additionalImages == old(additionalImages)
      ensures coverImagePreview == old(coverImagePreview)
      ensures additionalImagePreviews == old(additionalImagePreviews)
      ensures loading == old(loading) && requests == old(requests)
    {
      formData := SetField(formData, field, value);
    }

    /** A cover was picked; an empty selection changes nothing. */
    method HandleCoverImageChange(files: seq<File>)
      requires Valid()
      modifies this
      ensures Valid()
      ensures coverImage == if files == [] then old(coverImage) else Some(files[0])
      ensures formData == old(formData) && additionalImages == old(additionalImages)
      ensures loading == old(loading) && requests == old(requests)
    {
      if files != [] {
        coverImage := Some(files[0]);
        coverImagePreview := files[0].dataUrl;
      }
    }

    /** The cover's remove button. */
    method RemoveCoverImage()
      requires Valid()
      modifies this
      ensures Valid()
      ensures coverImage == None && coverImagePreview == ""
      ensures formData == old(formData) && additionalImages == old(additionalImages)
      ensures loading == old(loading) && requests == old(requests)
    {
      coverImage := None;
      coverImagePreview := "";
    }

    /** New files are appended after the ones already picked, each with its
        preview; an empty selection changes nothing. */
    method HandleAdditionalImagesChange(files: seq<File>)
      requires Valid()
      modifies this
      ensures Valid()
      ensures additionalImages == old(additionalImages) + files
      ensures additionalImagePreviews == old(additionalImagePreviews) + DataUrls(files)
      ensures formData == old(formData) && coverImage == old(coverImage)
      ensures loading == old(loading) && requests == old(requests)
    {
      if |files| > 0 {
        additionalImages := additionalImages + files;
        var i := 0;
        while i < |files|
          invariant 0 <= i <= |files|
          invariant additionalImages == old(additionalImages) + files
          invariant additionalImagePreviews == old(additionalImagePreviews) + DataUrls(files[..i])
          invariant formData == old(formData) && coverImage == old(coverImage)
          invariant coverImagePreview == old(coverImagePreview)
          invariant loading == old(loading) && requests == old(requests)
        {
          assert files[..i + 1] == files[..i] + [files[i]];
          DataUrlsAppend(files[..i], [files[i]]);
          additionalImagePreviews := additionalImagePreviews + [files[i].dataUrl];
          i := i + 1;
        }
        assert files[..i] == files;
      } else {
        assert files == [];
      }
      DataUrlsAppend(old(additionalImages), files);
    }

    /** Drops position `index` from both the files and their previews. */
    method RemoveAdditionalImage(index: int)
      requires Valid()
      modifies this
      ensures Valid()
      ensures additionalImages == RemoveAt(old(additionalImages), index)
      ensures additionalImagePreviews == RemoveAt(old(additionalImagePreviews), index)
      ensures formData == old(formData) && coverImage == old(coverImage)
      ensures loading == old(loading) && requests == old(requests)
    {
      RemoveAtSpec(additionalImages, index);
      RemoveAtSpec(additionalImagePreviews, index);
      additionalImages := RemoveAt(additionalImages, index);
      additionalImagePreviews := RemoveAt(additionalImagePreviews, index);
    }

    /** Builds the FormData entry by entry. */
    method BuildPayload() returns (entries: seq<Entry>)
      requires coverImage.Some?
      ensures entries == Payload(formData, coverImage.value, additionalImages)
    {
      var head := [Entry("name", Text(formData.name)), Entry("type", Text(formData.itemType)),
                   Entry("description", Text(formData.description)),
                   Entry(UploadRules.CoverField, Blob(coverImage.value))];
      entries := head;
      var i := 0;
      while i < |additionalImages|
        invariant 0 <= i <= |additionalImages|
        invariant entries == head + ImageEntries(additionalImages[..i])
      {
        assert additionalImages[..i + 1] == additionalImages[..i] + [additionalImages[i]];
        ImageEntriesAppend(additionalImages[..i], [additionalImages[i]]);
        entries := entries + [Entry(UploadRules.ImagesField, Blob(additionalImages[i]))];
        i := i + 1;
      }
      assert additionalImages[..i] == additionalImages;
    }

    /** Without the three fields and a cover nothing is sent and nothing
        changes. Otherwise exactly one payload is sent; after a successful
        request the form is empty again, after a failed one it is kept. The
        busy flag is off at the end either way. */
    method HandleSubmit(requestSucceeds: bool) returns (sent: bool)
      requires Valid()
      modifies this
      ensures Valid()
      ensures sent <==> CanSubmit(old(formData), old(coverImage))
      ensures !sent ==> (formData == old(formData) && coverImage == old(coverImage) &&
        additionalImages == old(additionalImages) && requests == old(requests) && loading == old(loading))
      ensures sent ==> requests == old(requests) + [Payload(old(formData), old(coverImage).value, old(additionalImages))]
      ensures sent ==> !loading
      ensures sent && requestSucceeds ==> (formData == EmptyForm && coverImage == None &&
        additionalImages == [] && coverImagePreview == "" && additionalImagePreviews == [])
      ensures sent && !requestSucceeds ==> (formData == old(formData) && coverImage == old(coverImage) &&
        additionalImages == old(additionalImages))
    {
      if !CanSubmit(formData, coverImage) {
        return false;
      }
      loading := true;
      var payload := BuildPayload();
      requests := requests + [payload];
      sent := true;
      if requestSucceeds {
        formData := EmptyForm;
        coverImage := None;
        additionalImages := [];
        coverImagePreview := "";
        additionalImagePreviews := [];
      }
      loading := false;
    }
  }

  // ---------------------------------------------------------------------
  // properties
  // ---------------------------------------------------------------------

  /** A change touches only the named field. */
  lemma SetFieldFrame(f: FormFields, field: Field, value: string, other: Field)
    ensures FieldValue(SetField(f, field, value), other) == if other == field then value else FieldValue(f, other)
  {
  }

  /** Removing by position drops exactly that position and keeps the others
      in order; a position outside the list changes nothing. */
  lemma RemoveAtSpec<T>(s: seq<T>, index: int)
    ensures RemoveAt(s, index) == if 0 <= index < |s| then s[..index] + s[index + 1..] else s
  {
    KeepOthersSpec(s, index, 0);
    if 0 <= index < |s| {
      assert s[..index] + s[index + 1..] == s[..index - 0] + s[index - 0 + 1..];
    }
  }

  lemma {:induction false} KeepOthersSpec<T>(s: seq<T>, index: int, from: int)
    ensures KeepOthers(s, index, from) ==
      if from <= index < from + |s| then s[..index - from] + s[index - from + 1..] else s
    decreases |s|
  {
    if s != [] {
      KeepOthersSpec(s[1..], index, from + 1);
      var rest := s[1..];
      if from == index {
        assert s[index - from + 1..] == rest;
      } else if from < index < from + |s| {
        assert rest[..index - from - 1] + rest[index - from..] == (s[..index - from] + s[index - from + 1..])[1..];
        assert s[..index - from] + s[index - from + 1..] == [s[0]] + (rest[..index - from - 1] + rest[index - from..]);
      } else {
        assert [s[0]] + rest == s;
      }
    }
  }

  /** Removing the same position from the files and from their previews
      keeps every file next to its own preview. */
  lemma RemoveAtKeepsPreviews(files: seq<File>, index: int)
    ensures RemoveAt(DataUrls(files), index) == DataUrls(RemoveAt(files, index))
  {
    RemoveAtSpec(files, index);
    RemoveAtSpec(DataUrls(files), index);
  }

  /** The payload is name, type, description, cover, then one `images`
      entry per additional image in list order. */
  lemma PayloadOrder(f: FormFields, cover: File, images: seq<File>)
    ensures |Payload(f, cover, images)| == 4 + |images|
    ensures Payload(f, cover, images)[..4] ==
      [Entry("name", Text(f.name)), Entry("type", Text(f.itemType)), Entry("description", Text(f.description)),
       Entry(UploadRules.CoverField, Blob(cover))]
    ensures forall k :: 0 <= k < |images| ==> Payload(f, cover, images)[4 + k] == Entry(UploadRules.ImagesField, Blob(images[k]))
  {
  }

  /** Reading the files back out of the payload gives the cover alone under
      its key and the additional images, in order, under theirs. */
  lemma PayloadFilesRoundTrip(f: FormFields, cover: File, images: seq<File>)
    ensures FilesUnder(Payload(f, cover, images), UploadRules.CoverField) == [cover]
    ensures FilesUnder(Payload(f, cover, images), UploadRules.ImagesField) == images
  {
    var texts := [Entry("name", Text(f.name)), Entry("type", Text(f.itemType)),
                  Entry("description", Text(f.description))];
    var coverEntry := [Entry(UploadRules.CoverField, Blob(cover))];
    assert Payload(f, cover, images) == texts + coverEntry + ImageEntries(images);
    forall key: string ensures FilesUnder(texts + coverEntry, key) ==
      if key == UploadRules.CoverField then [cover] else []
    {
      FilesUnderAppend(texts, coverEntry, key);
      TextsHaveNoFiles(texts, key);
      assert coverEntry[1..] == [];
    }
    FilesUnderAppend(texts + coverEntry, ImageEntries(images), UploadRules.CoverField);
    FilesUnderAppend(texts + coverEntry, ImageEntries(images), UploadRules.ImagesField);
    ImageEntriesUnder(images, UploadRules.ImagesField);
    ImageEntriesUnder(images, UploadRules.CoverField);
  }

  lemma {:induction false} TextsHaveNoFiles(entries: seq<Entry>, key: string)
    requires forall i :: 0 <= i < |entries| ==> entries[i].value.Text?
    ensures FilesUnder(entries, key) == []
    decreases |entries|
  {
    if entries != [] {
      TextsHaveNoFiles(entries[1..], key);
    }
  }

  lemma {:induction false} FilesUnderAppend(a: seq<Entry>, b: seq<Entry>, key: string)
    ensures FilesUnder(a + b, key) == FilesUnder(a, key) + FilesUnder(b, key)
    decreases |a|
  {
    if a == [] {
      assert a + b == b;
    } else {
      assert (a + b)[1..] == a[1..] + b;
      FilesUnderAppend(a[1..], b, key);
    }
  }

  lemma {:induction false} ImageEntriesUnder(images: seq<File>, key: string)
    ensures FilesUnder(ImageEntries(images), key) == if key == UploadRules.ImagesField then images else []
    decreases |images|
  {
    if images != [] {
      assert ImageEntries(images)[1..] == ImageEntries(images[1..]);
      ImageEntriesUnder(images[1..], key);
      if key == UploadRules.ImagesField {
        assert [images[0]] + images[1..] == images;
      }
    }
  }

  /** The form's type choices are the list page's, without its "All". */
  lemma TypeChoicesAgree()
    ensures ViewItems.ItemTypes == ["All"] + ItemTypes
  {
  }
}
