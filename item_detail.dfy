/** The item detail page: the image carousel over the cover and the
    additional images, and the enquiry button. */
module ItemDetail {
  import opened Wrappers
  import opened Inventory

  /** The cover followed by the additional images; nothing before the item
      is loaded. */
  function AllImages(item: Option<Item>): (images: seq<string>) {
    if item.Some? then [item.value.coverImage] + item.value.images else []
  }

  /** The index after the right arrow: one further, wrapping to the cover. */
  function Next(i: int, n: int): (j: int)
    requires n > 0
  {
    (i + 1) % n
  }

  /** The index after the left arrow: one back, wrapping to the last image. */
  function Prev(i: int, n: int): (j: int)
    requires n > 0
  {
    (i - 1 + n) % n
  }

  /** The arrows, the indicators and the thumbnails are drawn only for more
      than one image. */
  predicate ControlsShown(item: Option<Item>) {
    |AllImages(item)| > 1
  }

  /** The carousel lists the cover first and then every additional image in
      order; it has one image more than the item's list, or none. */
  lemma AllImagesShape(item: Option<Item>)
    ensures item.None? ==> AllImages(item) == []
    ensures item.Some? ==>
      |AllImages(item)| == |item.value.images| + 1 &&
      AllImages(item)[0] == item.value.coverImage &&
      forall k :: 0 <= k < |item.value.images| ==> AllImages(item)[k + 1] == item.value.images[k]
    ensures ControlsShown(item) <==> item.Some? && item.value.images != []
  {
  }

  /** Both arrows keep the index among the images. */
  lemma StepsStayInRange(i: int, n: int)
    requires 0 <= i < n
    ensures 0 <= Next(i, n) < n
    ensures 0 <= Prev(i, n) < n
  {
  }

  /** A value already below the modulus is its own remainder. */
  lemma ModOfSmall(a: int, n: int)
    requires 0 <= a < n
    ensures a % n == a
  {
  }

  /** A value between one and two moduli loses exactly one modulus. */
  lemma ModOfShifted(a: int, n: int)
    requires 0 < n <= a < 2 * n
    ensures a % n == a - n
  {
  }

  /** The right arrow in closed form. */
  lemma NextValue(i: int, n: int)
    requires 0 <= i < n
    ensures Next(i, n) == if i + 1 < n then i + 1 else 0
  {
    if i + 1 < n {
      ModOfSmall(i + 1, n);
    } else {
      ModOfShifted(i + 1, n);
    }
  }

  /** The left arrow in closed form. */
  lemma PrevValue(i: int, n: int)
    requires 0 <= i < n
    ensures Prev(i, n) == if i > 0 then i - 1 else n - 1
  {
    if i > 0 {
      ModOfShifted(i - 1 + n, n);
    } else {
      ModOfSmall(n - 1, n);
    }
  }

  /** The arrows undo each other. */
  lemma StepsAreInverse(i: int, n: int)
    requires 0 <= i < n
    ensures Prev(Next(i, n), n) == i
    ensures Next(Prev(i, n), n) == i
  {
    NextValue(i, n);
    PrevValue(i, n);
    PrevValue(Next(i, n), n);
    NextValue(Prev(i, n), n);
  }

  /** Left from the cover goes to the last image; right from the last image
      goes to the cover. */
  lemma StepsWrapAround(n: int)
    requires n > 0
    ensures Prev(0, n) == n - 1
    ensures Next(n - 1, n) == 0
  {
  }

  /** The page's state cells. */
  class ItemDetailPage {
    var item: Option<Item>
    var currentImageIndex: int
    var enquiryLoading: bool
    /** The ids of the items an enquiry was requested for, in order. */
    var enquiries: seq<string>

    /** The index names one of the images whenever there are any. */
    predicate Valid()
      reads this
    {
      0 <= currentImageIndex && (|AllImages(item)| == 0 || currentImageIndex < |AllImages(item)|)
    }

    /** The image in the main frame. */
    function Shown(): (url: Option<string>)
      reads this
    {
      if 0 <= currentImageIndex < |AllImages(item)| then Some(AllImages(item)[currentImageIndex]) else None
    }

    constructor ()
      ensures item == None && currentImageIndex == 0 && !enquiryLoading && enquiries == []
      ensures Valid()
    {
      item := None;
      currentImageIndex := 0;
      enquiryLoading := false;
      enquiries := [];
    }

    /** The fetched item arrives; the index is left where it was. */
    method Load(data: Item)
      modifies this
      ensures item == Some(data)
      ensures currentImageIndex == old(currentImageIndex)
      ensures enquiryLoading == old(enquiryLoading) && enquiries == old(enquiries)
    {
      item := Some(data);
    }

    method NextImage()
      requires Valid() && ControlsShown(item)
      modifies this
      ensures item == old(item) && enquiryLoading == old(enquiryLoading) && enquiries == old(enquiries)
      ensures currentImageIndex == Next(old(currentImageIndex), |AllImages(item)|)
      ensures Valid()
    {
      StepsStayInRange(currentImageIndex, |AllImages(item)|);
      currentImageIndex := (currentImageIndex + 1) % |AllImages(item)|;
    }

    method PrevImage()
      requires Valid() && ControlsShown(item)
      modifies this
      ensures item == old(item) && enquiryLoading == old(enquiryLoading) && enquiries == old(enquiries)
      ensures currentImageIndex == Prev(old(currentImageIndex), |AllImages(item)|)
      ensures Valid()
    {
      StepsStayInRange(currentImageIndex, |AllImages(item)|);
      currentImageIndex := (currentImageIndex - 1 + |AllImages(item)|) % |AllImages(item)|;
    }

    /** An indicator or a thumbnail was clicked; there is one per image. */
    method SelectImage(k: int)
      requires ControlsShown(item) && 0 <= k < |AllImages(item)|
      modifies this
      ensures item == old(item) && enquiryLoading == old(enquiryLoading) && enquiries == old(enquiries)
      ensures currentImageIndex == k && Shown() == Some(AllImages(item)[k])
      ensures Valid()
    {
      currentImageIndex := k;
    }

    /** Without a loaded item nothing happens; otherwise one enquiry for the
        item is requested and the button is enabled again afterwards, whether
        the request succeeded or not. */
    method HandleEnquiry()
      modifies this
      ensures old(item).None? ==> enquiries == old(enquiries) && enquiryLoading == old(enquiryLoading)
      ensures old(item).Some? ==> enquiries == old(enquiries) + [old(item).value.id] && !enquiryLoading
      ensures item == old(item) && currentImageIndex == old(currentImageIndex)
    {
      if item.None? {
        return;
      }
      enquiryLoading := true;
      enquiries := enquiries + [item.value.id];
      enquiryLoading := false;
    }
  }

  /** A freshly opened page shows the cover of the item it loads. */
  method OpenPage(data: Item) returns (page: ItemDetailPage)
    ensures page.item == Some(data) && page.Valid()
    ensures page.Shown() == Some(data.coverImage)
  {
    page := new ItemDetailPage();
    page.Load(data);
  }

  /** Right then left on the page returns to the image shown before. */
  method NextThenPrev(page: ItemDetailPage)
    requires page.Valid() && ControlsShown(page.item)
    modifies page
    ensures page.Shown() == old(page.Shown()) && page.Valid()
  {
    var before := page.currentImageIndex;
    page.NextImage();
    page.PrevImage();
    StepsAreInverse(before, |AllImages(page.item)|);
  }
}
