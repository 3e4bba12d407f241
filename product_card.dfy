/** The product card's interaction state: the image carousel, swipe handling, the
    selected size and the add-to-bag latch. */
module ProductCard {
  import opened Seqs
  import opened CatalogTypes

  /** A swipe moves the carousel only when it travels more than this. */
  const SwipeThreshold: int := 50

  const Placeholder: string := "/placeholder.svg"

  /** `(prev + 1) % length`. Both operands are non-negative on the carousel's indices,
      where JavaScript's truncating `%` and Dafny's Euclidean `%` agree. */
  function NextIndex(i: int, n: int): (r: int)
    requires 0 <= i < n
    ensures 0 <= r < n
    ensures r == if i == n - 1 then 0 else i + 1
  {
    (i + 1) % n
  }

  /** `(prev - 1 + length) % length`. */
  function PrevIndex(i: int, n: int): (r: int)
    requires 0 <= i < n
    ensures 0 <= r < n
    ensures r == if i == 0 then n - 1 else i - 1
  {
    (i - 1 + n) % n
  }

  /** Stepping back undoes stepping forward. */
  lemma PrevUndoesNext(i: int, n: int)
    requires 0 <= i < n
    ensures PrevIndex(NextIndex(i, n), n) == i
  {
  }

  /** Stepping forward undoes stepping back. */
  lemma NextUndoesPrev(i: int, n: int)
    requires 0 <= i < n
    ensures NextIndex(PrevIndex(i, n), n) == i
  {
  }

  /** `fixedColor`: the product's first colour, if it has one. */
  function FixedColor(p: Product): (r: Option<Color>)
    ensures r.None? <==> p.colors == []
    ensures r.Some? ==> r.value == p.colors[0]
  {
    if p.colors == [] then None else Some(p.colors[0])
  }

  /** The initial size selection, `sizes[0] || ''`. */
  function InitialSize(p: Product): (s: string)
    ensures p.sizes == [] ==> s == ""
    ensures p.sizes != [] ==> s == p.sizes[0]
  {
    if p.sizes == [] then "" else p.sizes[0]
  }

  /** `canAdd`: in stock, not just added, a size chosen when the product has sizes,
      and a colour to put in the bag. */
  predicate CanAddWith(p: Product, isAdded: bool, selectedSize: string)
  {
    p.inStock && !isAdded && (p.sizes == [] || selectedSize != "") && FixedColor(p).Some?
  }

  /** `images[imageIndex] || '/placeholder.svg'`: a missing or empty entry shows the placeholder. */
  function ImageSource(images: seq<string>, index: int): (src: string)
    ensures 0 <= index < |images| && images[index] != "" ==> src == images[index]
    ensures !(0 <= index < |images| && images[index] != "") ==> src == Placeholder
  {
    if 0 <= index < |images| && images[index] != "" then images[index] else Placeholder
  }

  /** A call the card makes into the shopping-bag store. */
  datatype CartCall = AddItem(product: Product, size: string, color: Color) | OpenCart

  class Card {
    const product: Product
    var imageIndex: int
    var touchStart: Option<int>
    var selectedSize: string
    var isAdded: bool
    /** An 800 ms callback is scheduled and has not fired yet. */
    var timerPending: bool
    /** The calls made into the bag store so far, oldest first. */
    var cartCalls: seq<CartCall>

    ghost predicate Valid()
      reads this
    {
      && (if |product.images| > 0 then 0 <= imageIndex < |product.images| else imageIndex == 0)
      && (product.sizes != [] ==> selectedSize in product.sizes)
      && (product.sizes == [] ==> selectedSize == "")
      && timerPending == isAdded
    }

    predicate CanAdd()
      reads this
    {
      CanAddWith(product, isAdded, selectedSize)
    }

    /** The image shown: always one of the product's own images or the placeholder. */
    function DisplayedImage(): (src: string)
      reads this
      ensures src == Placeholder || src in product.images
      ensures product.images == [] ==> src == Placeholder
    {
      ImageSource(product.images, imageIndex)
    }

    function ImageCount(): nat
    {
      |product.images|
    }

    constructor (p: Product)
      ensures Valid()
      ensures product == p && imageIndex == 0 && touchStart == None
      ensures selectedSize == InitialSize(p) && !isAdded && !timerPending && cartCalls == []
    {
      product := p;
      imageIndex := 0;
      touchStart := None;
      selectedSize := InitialSize(p);
      isAdded := false;
      timerPending := false;
      cartCalls := [];
    }

    /** `nextImage`: advances cyclically, only when there are several images. */
    method NextImage()
      requires Valid()
      modifies this`imageIndex
      ensures Valid()
      ensures ImageCount() > 1 ==> imageIndex == NextIndex(old(imageIndex), ImageCount())
      ensures ImageCount() <= 1 ==> imageIndex == old(imageIndex)
    {
      if ImageCount() <= 1 {
        return;
      }
      imageIndex := (imageIndex + 1) % ImageCount();
    }

    /** `prevImage`: steps back cyclically, only when there are several images. */
    method PrevImage()
      requires Valid()
      modifies this`imageIndex
      ensures Valid()
      ensures ImageCount() > 1 ==> imageIndex == PrevIndex(old(imageIndex), ImageCount())
      ensures ImageCount() <= 1 ==> imageIndex == old(imageIndex)
    {
      if ImageCount() <= 1 {
        return;
      }
      imageIndex := (imageIndex - 1 + ImageCount()) % ImageCount();
    }

    /** `handleTouchStart`: remembers where the touch began. */
    method HandleTouchStart(clientX: int)
      requires Valid()
      modifies this`touchStart
      ensures Valid() && touchStart == Some(clientX)
    {
      touchStart := Some(clientX);
    }

    /** `handleTouchEnd`: a swipe of more than the threshold to the left shows the next
        image, to the right the previous one; the touch is forgotten either way. */
    method HandleTouchEnd(clientX: int)
      requires Valid()
      modifies this`touchStart, this`imageIndex
      ensures Valid() && touchStart == None
      ensures old(touchStart) == None ==> imageIndex == old(imageIndex)
      ensures old(touchStart).Some? && old(touchStart).value - clientX > SwipeThreshold && ImageCount() > 1 ==>
        imageIndex == NextIndex(old(imageIndex), ImageCount())
      ensures old(touchStart).Some? && old(touchStart).value - clientX < -SwipeThreshold && ImageCount() > 1 ==>
        imageIndex == PrevIndex(old(imageIndex), ImageCount())
      ensures old(touchStart).Some? && -SwipeThreshold <= old(touchStart).value - clientX <= SwipeThreshold ==>
        imageIndex == old(imageIndex)
      ensures ImageCount() <= 1 ==> imageIndex == old(imageIndex)
    {
      if touchStart == None {
        return;
      }
      var distance := touchStart.value - clientX;
      if distance > SwipeThreshold || distance < -SwipeThreshold {
        if distance > 0 {
          NextImage();
        } else {
          PrevImage();
        }
      }
      touchStart := None;
    }

    /** Hovering shows the second image when there are several. */
    method MouseEnter()
      requires Valid()
      modifies this`imageIndex
      ensures Valid()
      ensures ImageCount() > 1 ==> imageIndex == 1
      ensures ImageCount() <= 1 ==> imageIndex == old(imageIndex)
    {
      if ImageCount() > 1 {
        imageIndex := 1 % ImageCount();
      }
    }

    /** Leaving shows the first image again. */
    method MouseLeave()
      requires Valid()
      modifies this`imageIndex
      ensures Valid() && imageIndex == 0
    {
      imageIndex := 0;
    }

    /** A size button: the buttons are drawn from the product's own sizes. */
    method SelectSize(size: string)
      requires Valid() && size in product.sizes
      modifies this`selectedSize
      ensures Valid() && selectedSize == size
    {
      selectedSize := size;
    }

    /** `handleAddToCart`: when adding is allowed, puts the product in the bag with the
        selected size and fixed colour, latches `isAdded` and schedules the callback;
        otherwise changes nothing. Either way adding is not allowed afterwards. */
    method HandleAddToCart()
      requires Valid()
      modifies this`isAdded, this`timerPending, this`cartCalls
      ensures Valid() && !CanAdd()
      ensures old(CanAdd()) ==> (isAdded && timerPending &&
        cartCalls == old(cartCalls) + [AddItem(product, selectedSize, FixedColor(product).value)])
      ensures !old(CanAdd()) ==>
        isAdded == old(isAdded) && timerPending == old(timerPending) && cartCalls == old(cartCalls)
    {
      if !CanAdd() {
        return;
      }
      var color := FixedColor(product).value;
      cartCalls := cartCalls + [AddItem(product, selectedSize, color)];
      isAdded := true;
      timerPending := true;
    }

    /** The scheduled callback: releases the latch and opens the bag. */
    method TimerFires()
      requires Valid() && timerPending
      modifies this`isAdded, this`timerPending, this`cartCalls
      ensures Valid() && !isAdded && !timerPending
      ensures cartCalls == old(cartCalls) + [OpenCart]
      ensures CanAdd() <==> CanAddWith(product, false, selectedSize)
    {
      isAdded := false;
      timerPending := false;
      cartCalls := cartCalls + [OpenCart];
    }
  }

  /** Two quick clicks on a fresh card put the product in the bag at most once: once
      exactly when a fresh card allows adding. */
  method DoubleClickAddsOnce(p: Product) returns (added: nat)
    ensures added == if CanAddWith(p, false, InitialSize(p)) then 1 else 0
  {
    var card := new Card(p);
    card.HandleAddToCart();
    card.HandleAddToCart();
    added := |card.cartCalls|;
  }
}
