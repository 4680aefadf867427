/** The two photo viewers of the public page (src/public/js/app.js): the
    property modal's viewer (`currentPropertyImages` and
    `currentPropertyImageIndex`) and the full-screen image modal
    (`activeGalleryImages` and `currentImageIndex`). Opening a property shows
    its photos in both; the DOM updates are left out, and only the indices
    the code keeps are modelled. */
module Gallery {
  /** The index after the clamp of `updateImageModal` and
      `updatePropertyModalImage`: below zero goes to the last photo, past the
      end to the first, and with no photos nothing changes. */
  function Wrap(index: int, total: nat): int {
    if total == 0 then index
    else if index < 0 then total - 1
    else if index >= total then 0
    else index
  }

  /** With photos, the clamp always lands on one of them, and leaves a valid
      index alone. */
  lemma WrapInRange(index: int, total: nat)
    requires total > 0
    ensures 0 <= Wrap(index, total) < total
    ensures 0 <= index < total ==> Wrap(index, total) == index
  {
  }

  /** A number below the modulus is its own remainder. */
  lemma ModBelow(a: int, n: int)
    requires 0 <= a < n
    ensures a % n == a
  {
  }

  /** The modulus leaves no remainder. */
  lemma ModSelf(n: int)
    requires n > 0
    ensures n % n == 0
  {
  }

  /** Adding the modulus once does not change the remainder of a number
      below it. */
  lemma ModAddOnce(a: int, n: int)
    requires 0 <= a < n
    ensures (a + n) % n == a
  {
  }

  /** One step forward from a valid index is the next photo, the first after
      the last; one step back is the previous one, the last before the
      first. */
  lemma WrapSteps(index: int, total: nat)
    requires 0 <= index < total
    ensures Wrap(index + 1, total) == (index + 1) % total
    ensures Wrap(index - 1, total) == (index - 1 + total) % total
  {
    if index + 1 < total {
      ModBelow(index + 1, total);
    } else {
      ModSelf(total);
    }
    if index > 0 {
      ModAddOnce(index - 1, total);
    } else {
      ModBelow(total - 1, total);
    }
  }

  /** Stepping forward and then back, or back and then forward, returns to
      the same photo. */
  lemma WrapStepsInverse(index: int, total: nat)
    requires 0 <= index < total
    ensures Wrap(Wrap(index + 1, total) - 1, total) == index
    ensures Wrap(Wrap(index - 1, total) + 1, total) == index
  {
  }

  /** The page's viewer state. */
  class Viewer {
    var galleryImages: seq<string>
    var galleryIndex: int
    var propertyImages: seq<string>
    var propertyIndex: int

    /** The property viewer shows one of its photos whenever it has any. */
    ghost predicate Valid()
      reads this
    {
      propertyImages != [] ==> 0 <= propertyIndex < |propertyImages|
    }

    /** The state when the page loads (src/public/js/app.js:21-25). */
    constructor ()
      ensures Valid()
      ensures galleryImages == [] && galleryIndex == 0 && propertyImages == [] && propertyIndex == 0
    {
      galleryImages := [];
      galleryIndex := 0;
      propertyImages := [];
      propertyIndex := 0;
    }

    /** `openModal`: both viewers take the property's photos and the property
        viewer starts at the first; the image modal keeps its index until it
        is opened. */
    method OpenModal(fotos: seq<string>)
      modifies this
      ensures Valid()
      ensures galleryImages == fotos && propertyImages == fotos && propertyIndex == 0
      ensures galleryIndex == old(galleryIndex)
    {
      galleryImages := fotos;
      propertyImages := fotos;
      propertyIndex := 0;
      if |fotos| > 0 {
        UpdatePropertyImage();
      }
    }

    /** `updatePropertyModalImage`. */
    method UpdatePropertyImage()
      modifies this
      ensures propertyIndex == Wrap(old(propertyIndex), |propertyImages|)
      ensures propertyImages != [] ==> 0 <= propertyIndex < |propertyImages|
      ensures propertyImages == old(propertyImages)
      ensures galleryImages == old(galleryImages) && galleryIndex == old(galleryIndex)
    {
      if |propertyImages| == 0 {
        return;
      }
      var total := |propertyImages|;
      if propertyIndex < 0 {
        propertyIndex := total - 1;
      }
      if propertyIndex >= total {
        propertyIndex := 0;
      }
    }

    /** The property viewer's "previous" button, which exists only when the
        property has photos. */
    method PropertyPrevious()
      requires Valid() && propertyImages != []
      modifies this
      ensures Valid()
      ensures propertyImages == old(propertyImages)
      ensures propertyIndex == (old(propertyIndex) - 1 + |propertyImages|) % |propertyImages|
      ensures galleryImages == old(galleryImages) && galleryIndex == old(galleryIndex)
    {
      WrapSteps(propertyIndex, |propertyImages|);
      propertyIndex := propertyIndex - 1;
      UpdatePropertyImage();
    }

    /** The property viewer's "next" button. */
    method PropertyNext()
      requires Valid() && propertyImages != []
      modifies this
      ensures Valid()
      ensures propertyImages == old(propertyImages)
      ensures propertyIndex == (old(propertyIndex) + 1) % |propertyImages|
      ensures galleryImages == old(galleryImages) && galleryIndex == old(galleryIndex)
    {
      WrapSteps(propertyIndex, |propertyImages|);
      propertyIndex := propertyIndex + 1;
      UpdatePropertyImage();
    }

    /** `openImageModal`: with photos, the image modal opens at `index`
        after the clamp; without, nothing happens. */
    method OpenImageModal(index: int)
      modifies this
      ensures galleryIndex == if galleryImages == [] then old(galleryIndex) else Wrap(index, |galleryImages|)
      ensures galleryImages != [] ==> 0 <= galleryIndex < |galleryImages|
      ensures galleryImages == old(galleryImages)
      ensures propertyImages == old(propertyImages) && propertyIndex == old(propertyIndex)
    {
      if |galleryImages| == 0 {
        return;
      }
      galleryIndex := index;
      UpdateImageModal();
    }

    /** `updateImageModal`. */
    method UpdateImageModal()
      modifies this
      ensures galleryIndex == Wrap(old(galleryIndex), |galleryImages|)
      ensures galleryImages != [] ==> 0 <= galleryIndex < |galleryImages|
      ensures galleryImages == old(galleryImages)
      ensures propertyImages == old(propertyImages) && propertyIndex == old(propertyIndex)
    {
      var total := |galleryImages|;
      if total == 0 {
        return;
      }
      if galleryIndex < 0 {
        galleryIndex := total - 1;
      }
      if galleryIndex >= total {
        galleryIndex := 0;
      }
    }

    /** `goToPreviousImage`: from a valid index the previous photo, the last
        before the first. With no photos the index still moves, unclamped. */
    method GoToPreviousImage()
      modifies this
      ensures galleryIndex == Wrap(old(galleryIndex) - 1, |galleryImages|)
      ensures 0 <= old(galleryIndex) < |galleryImages| ==>
                galleryIndex == (old(galleryIndex) - 1 + |galleryImages|) % |galleryImages|
      ensures galleryImages == old(galleryImages)
      ensures propertyImages == old(propertyImages) && propertyIndex == old(propertyIndex)
    {
      if 0 <= galleryIndex < |galleryImages| {
        WrapSteps(galleryIndex, |galleryImages|);
      }
      galleryIndex := galleryIndex - 1;
      UpdateImageModal();
    }

    /** `goToNextImage`: from a valid index the next photo, the first after
        the last. */
    method GoToNextImage()
      modifies this
      ensures galleryIndex == Wrap(old(galleryIndex) + 1, |galleryImages|)
      ensures 0 <= old(galleryIndex) < |galleryImages| ==>
                galleryIndex == (old(galleryIndex) + 1) % |galleryImages|
      ensures galleryImages == old(galleryImages)
      ensures propertyImages == old(propertyImages) && propertyIndex == old(propertyIndex)
    {
      if 0 <= galleryIndex < |galleryImages| {
        WrapSteps(galleryIndex, |galleryImages|);
      }
      galleryIndex := galleryIndex + 1;
      UpdateImageModal();
    }
  }
}
