/**
  The image carousel inside the project modal (`updateModalImageSlider` and
  the handlers of its previous/next controls). Navigation saturates at both
  ends: it neither wraps nor fails.
 */
module Carousel {

  /** One navigation control: whether it is displayed, and whether it is disabled. */
  datatype Control = Control(shown: bool, disabled: bool)

  /** What the slider shows: the "No images available." placeholder, or one image. */
  datatype Frame = Placeholder | Picture(index: nat, src: string)

  /**
    The slider as the page holds it. `storedIndex` is the
    `data-current-image-index` attribute the click handlers read back; the
    handlers read a missing attribute as `0`, so a fresh slider holds `0`.
   */
  datatype Slider = Slider(frame: Frame, storedIndex: int, prev: Control, next: Control)

  function Max(a: int, b: int): int { if a < b then b else a }

  function Min(a: int, b: int): int { if a < b then a else b }

  /** `Math.max(0, Math.min(i, n - 1))`: the nearest index of a list of `n` images. */
  function Clamp(i: int, n: nat): (r: int)
    ensures n > 0 ==> 0 <= r < n
    ensures 0 <= i < n ==> r == i
    ensures i < 0 ==> r == 0
    ensures n > 0 && i >= n ==> r == n - 1
  {
    Max(0, Min(i, n - 1))
  }

  /**
    The slider shows image `i` of `images` and its controls follow the rules:
    both are displayed only when there is more than one image, previous is
    disabled on the first image and next on the last.
   */
  predicate Rendered(images: seq<string>, s: Slider) {
    && |images| > 0
    && 0 <= s.storedIndex < |images|
    && s.frame == Picture(s.storedIndex, images[s.storedIndex])
    && s.prev == Control(|images| > 1, s.storedIndex == 0)
    && s.next == Control(|images| > 1, s.storedIndex == |images| - 1)
  }

  /**
    `updateModalImageSlider(requested)`. With no images it shows the
    placeholder and hides both controls, leaving their disabled flags and the
    stored index as they were. Otherwise it shows the image at the requested
    index clamped into range and records that index.
   */
  function ShowImage(images: seq<string>, requested: int, prior: Slider): (r: Slider)
    ensures |images| == 0 ==>
      && r.frame == Placeholder && !r.prev.shown && !r.next.shown
      && r.prev.disabled == prior.prev.disabled && r.next.disabled == prior.next.disabled
      && r.storedIndex == prior.storedIndex
    ensures |images| > 0 ==> Rendered(images, r)
    ensures 0 <= requested < |images| ==> r.storedIndex == requested
    ensures |images| > 0 && requested < 0 ==> r.storedIndex == 0
    ensures |images| > 0 && requested >= |images| ==> r.storedIndex == |images| - 1
  {
    if |images| == 0 then
      Slider(Placeholder, prior.storedIndex,
        prior.prev.(shown := false), prior.next.(shown := false))
    else
      var i := Clamp(requested, |images|);
      var showButtons := |images| > 1;
      Slider(Picture(i, images[i]), i,
        Control(showButtons, i == 0), Control(showButtons, i == |images| - 1))
  }

  /**
    The next-image control's click handler: show `storedIndex + 1`. On a
    rendered slider this moves one image on, stopping at the last; with no
    images it leaves the placeholder and the stored index as they are.
   */
  function Next(images: seq<string>, s: Slider): (r: Slider)
    ensures Rendered(images, s) ==> Rendered(images, r) && r.storedIndex == Min(s.storedIndex + 1, |images| - 1)
    ensures |images| == 0 ==> r.frame == Placeholder && r.storedIndex == s.storedIndex
  {
    ShowImage(images, s.storedIndex + 1, s)
  }

  /**
    The previous-image control's click handler: show `storedIndex - 1`. On a
    rendered slider this moves one image back, stopping at the first; with
    no images it leaves the placeholder and the stored index as they are.
   */
  function Prev(images: seq<string>, s: Slider): (r: Slider)
    ensures Rendered(images, s) ==> Rendered(images, r) && r.storedIndex == Max(s.storedIndex - 1, 0)
    ensures |images| == 0 ==> r.frame == Placeholder && r.storedIndex == s.storedIndex
  {
    ShowImage(images, s.storedIndex - 1, s)
  }

  /** One click moves one image towards the end, stopping at the last. */
  lemma {:induction false} NextMovesOne(images: seq<string>, s: Slider)
    requires Rendered(images, s)
    ensures Rendered(images, Next(images, s))
    ensures Next(images, s).storedIndex == Min(s.storedIndex + 1, |images| - 1)
  {
  }

  /** One click moves one image towards the start, stopping at the first. */
  lemma {:induction false} PrevMovesOne(images: seq<string>, s: Slider)
    requires Rendered(images, s)
    ensures Rendered(images, Prev(images, s))
    ensures Prev(images, s).storedIndex == Max(s.storedIndex - 1, 0)
  {
  }

  /** At the last image a further click on next changes nothing: no wrap-around. */
  lemma {:induction false} NextAtLastIsNoOp(images: seq<string>, s: Slider)
    requires Rendered(images, s) && s.storedIndex == |images| - 1
    ensures Next(images, s) == s
  {
  }

  /** At the first image a further click on previous changes nothing. */
  lemma {:induction false} PrevAtFirstIsNoOp(images: seq<string>, s: Slider)
    requires Rendered(images, s) && s.storedIndex == 0
    ensures Prev(images, s) == s
  {
  }

  /** `k` consecutive clicks on next. */
  function NextClicks(images: seq<string>, s: Slider, k: nat): Slider
    decreases k
  {
    if k == 0 then s else NextClicks(images, Next(images, s), k - 1)
  }

  /** `k` consecutive clicks on previous. */
  function PrevClicks(images: seq<string>, s: Slider, k: nat): Slider
    decreases k
  {
    if k == 0 then s else PrevClicks(images, Prev(images, s), k - 1)
  }

  /** After `k` clicks on next the index is `min(i + k, n - 1)`: it saturates. */
  lemma {:induction false} NextClicksSaturate(images: seq<string>, s: Slider, k: nat)
    requires Rendered(images, s)
    ensures Rendered(images, NextClicks(images, s, k))
    ensures NextClicks(images, s, k).storedIndex == Min(s.storedIndex + k, |images| - 1)
    decreases k
  {
    if k > 0 {
      NextMovesOne(images, s);
      NextClicksSaturate(images, Next(images, s), k - 1);
    }
  }

  /** After `k` clicks on previous the index is `max(i - k, 0)`: it saturates. */
  lemma {:induction false} PrevClicksSaturate(images: seq<string>, s: Slider, k: nat)
    requires Rendered(images, s)
    ensures Rendered(images, PrevClicks(images, s, k))
    ensures PrevClicks(images, s, k).storedIndex == Max(s.storedIndex - k, 0)
    decreases k
  {
    if k > 0 {
      PrevMovesOne(images, s);
      PrevClicksSaturate(images, Prev(images, s), k - 1);
    }
  }
}
