/**
 * The portfolio carousel: nine images, a current index and an autoplay
 * flag. The arrows and the indicator dots move the index and stop
 * autoplay; the autoplay timer advances the index while autoplay is on.
 */
module Portfolio {
  /** A portfolio picture (the imported file it shows is left out). */
  datatype Image = Image(id: nat, alt: string)

  const Images: seq<Image> := [
    Image(1, "Volume Russo Clássico"),
    Image(2, "Volume Brasileiro Natural"),
    Image(3, "Mega Volume Dramático"),
    Image(4, "Volume 5D Perfeito"),
    Image(5, "Designer de Sobrancelhas"),
    Image(6, "Efeito Fox Eyes"),
    Image(7, "Volume Híbrido Luxo"),
    Image(8, "Alongamento Natural"),
    Image(9, "Resultado Impecável")
  ]

  /** `portfolioImages.length`. */
  const Count: nat := 9

  /** The images are numbered 1 to 9 in order. */
  lemma ImagesNumbered()
    ensures |Images| == Count
    ensures forall i :: 0 <= i < Count ==> Images[i].id == i + 1
  {
  }

  /** How many images the carousel shows at once. */
  const VisibleCount: nat := 6

  /** `(prev + 1) % portfolioImages.length`. */
  function Next(i: nat): (r: nat)
    ensures r < Count
    ensures i + 1 < Count ==> r == i + 1
    ensures i == Count - 1 ==> r == 0
  {
    (i + 1) % Count
  }

  /** `prev === 0 ? portfolioImages.length - 1 : prev - 1`. */
  function Previous(i: nat): (r: nat)
    requires i < Count
    ensures r < Count
    ensures i == 0 ==> r == Count - 1
  {
    if i == 0 then Count - 1 else i - 1
  }

  /** Next and previous undo each other on every index. */
  lemma NextPreviousInverse(i: nat)
    requires i < Count
    ensures Next(Previous(i)) == i
    ensures Previous(Next(i)) == i
  {
  }

  /** `k` steps forward from `i`. */
  function Advance(i: nat, k: nat): nat {
    if k == 0 then i else Next(Advance(i, k - 1))
  }

  /** `k` steps forward land on `(i + k) % 9`. */
  lemma {:induction false} AdvanceIsModular(i: nat, k: nat)
    requires i < Count
    ensures Advance(i, k) == (i + k) % Count
  {
    if k > 0 {
      AdvanceIsModular(i, k - 1);
    }
  }

  /** Nine steps forward, by arrow or by timer, come back to the same image. */
  lemma NineStepsReturn(i: nat)
    requires i < Count
    ensures Advance(i, Count) == i
  {
    AdvanceIsModular(i, Count);
  }

  /** Six consecutive positions round a ring of nine never repeat. */
  lemma WindowIndicesDistinct(c: nat, i: nat, j: nat)
    requires c < Count && i < j < VisibleCount
    ensures (c + i) % Count != (c + j) % Count
  {
    if c + j < Count {
    } else if c + i >= Count {
      assert (c + i) % Count == c + i - Count;
      assert (c + j) % Count == c + j - Count;
    } else {
      assert (c + j) % Count == c + j - Count;
    }
  }

  /** The image `i` places after image `c`, wrapping round. */
  function After(c: nat, i: nat): Image {
    ImagesNumbered();
    Images[(c + i) % Count]
  }

  /** The six images of a window starting anywhere are all different. */
  lemma WindowDistinct(c: nat)
    requires c < Count
    ensures forall i, j :: 0 <= i < j < VisibleCount ==> After(c, i) != After(c, j)
  {
    ImagesNumbered();
    forall i, j | 0 <= i < j < VisibleCount
      ensures After(c, i) != After(c, j)
    {
      WindowIndicesDistinct(c, i, j);
      var a, b := (c + i) % Count, (c + j) % Count;
      assert Images[a].id == a + 1 && Images[b].id == b + 1;
    }
  }

  /** The carousel's state: `currentIndex` and `isAutoPlaying`. */
  class Carousel {
    var currentIndex: nat
    var isAutoPlaying: bool

    ghost predicate Valid()
      reads this
    {
      currentIndex < Count
    }

    /** The first image, with autoplay on. */
    constructor()
      ensures Valid() && currentIndex == 0 && isAutoPlaying
    {
      currentIndex := 0;
      isAutoPlaying := true;
    }

    /** The left arrow: stop autoplay, step back, wrapping from the first image to the last. */
    method GoToPrevious()
      requires Valid()
      modifies this
      ensures Valid() && currentIndex == Previous(old(currentIndex)) && !isAutoPlaying
    {
      isAutoPlaying := false;
      currentIndex := if currentIndex == 0 then Count - 1 else currentIndex - 1;
    }

    /** The right arrow: stop autoplay, step forward, wrapping from the last image to the first. */
    method GoToNext()
      requires Valid()
      modifies this
      ensures Valid() && currentIndex == Next(old(currentIndex)) && !isAutoPlaying
    {
      isAutoPlaying := false;
      currentIndex := (currentIndex + 1) % Count;
    }

    /** An indicator dot: stop autoplay and jump to the dot's image. */
    method GoToSlide(index: nat)
      requires index < Count
      modifies this
      ensures Valid() && currentIndex == index && !isAutoPlaying
    {
      isAutoPlaying := false;
      currentIndex := index;
    }

    /**
     * One firing of the four-second timer. The timer only runs while
     * autoplay is on, so with autoplay off nothing changes.
     */
    method AutoplayTick()
      requires Valid()
      modifies this
      ensures Valid() && isAutoPlaying == old(isAutoPlaying)
      ensures currentIndex == if old(isAutoPlaying) then Next(old(currentIndex)) else old(currentIndex)
    {
      if isAutoPlaying {
        currentIndex := (currentIndex + 1) % Count;
      }
    }

    /**
     * The six images on screen: the current one and the five after it,
     * wrapping round, all different.
     */
    method GetVisibleImages() returns (images: seq<Image>)
      requires Valid()
      ensures |images| == VisibleCount
      ensures forall i :: 0 <= i < VisibleCount ==> images[i] == After(currentIndex, i)
      ensures images[0] == Images[currentIndex]
      ensures forall i, j :: 0 <= i < j < |images| ==> images[i] != images[j]
    {
      assert |Images| == Count;
      images := [];
      for i := 0 to VisibleCount
        invariant |images| == i
        invariant forall k :: 0 <= k < i ==> images[k] == After(currentIndex, k)
      {
        var index := (currentIndex + i) % Count;
        images := images + [Images[index]];
      }
      WindowDistinct(currentIndex);
    }
  }
}
