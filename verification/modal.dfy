/**
  The project detail modal: `openModal` fills it from a card's attributes,
  and the close control, a click on the backdrop and the Escape key all
  close it.
 */
module Modal {
  import opened Text
  import CommaList
  import Carousel
  import Projects

  /** The two external links a modal can offer. */
  datatype LinkKind = GitHub | LiveDemo

  /** One `<a>` in the links section: which link it is and its `href`. */
  datatype Link = Link(kind: LinkKind, href: string)

  /** `value && value !== '#'`: present, not empty, and not the `#` placeholder. */
  predicate IsRealLink(m: MaybeString) {
    m.Present? && m.value != "" && m.value != "#"
  }

  /**
    The links section's anchors: the GitHub link first, then the Live Demo
    link, each emitted only when its attribute holds a real link.
   */
  function ModalLinks(github: MaybeString, live: MaybeString): (r: seq<Link>)
    ensures r == [] <==> !IsRealLink(github) && !IsRealLink(live)
    ensures |r| <= 2
    ensures IsRealLink(github) ==> r[0] == Link(GitHub, github.value)
    ensures IsRealLink(live) ==> r[|r| - 1] == Link(LiveDemo, live.value)
    ensures forall k :: 0 <= k < |r| ==> r[k].kind == GitHub ==> k == 0 && r[k].href == OrEmpty(github)
    ensures forall k :: 0 <= k < |r| ==> r[k].kind == LiveDemo ==> k == |r| - 1 && r[k].href == OrEmpty(live)
    ensures forall k :: 0 <= k < |r| ==> r[k].href != "" && r[k].href != "#"
  {
    (if IsRealLink(github) then [Link(GitHub, github.value)] else [])
    + (if IsRealLink(live) then [Link(LiveDemo, live.value)] else [])
  }

  /** The modal and everything `openModal` writes into it. */
  datatype ModalView = ModalView(
    visible: bool,
    title: string,
    about: string,
    challenges: string,
    links: seq<Link>,
    linksShown: bool,
    features: CommaList.ListSection,
    tech: CommaList.ListSection,
    images: seq<string>,
    slider: Carousel.Slider)

  /**
    `openModal(card)`. The text fields are copied verbatim (a missing one
    shows as empty), the links section is hidden when it has no link, the
    feature and tech sections are built by `CreateListItems`, the image list
    is parsed from `data-images` and the slider shows its first image, and
    the modal becomes visible. `prior` is the modal as it was; only the
    slider's hidden state can survive from it.
   */
  function OpenModal(card: Projects.Card, prior: ModalView): (r: ModalView)
    ensures r.visible
    ensures r.title == OrEmpty(card.title) && r.about == OrEmpty(card.about)
    ensures r.challenges == OrEmpty(card.challenges)
    ensures r.links == ModalLinks(card.githubLink, card.liveLink)
    ensures r.linksShown <==> IsRealLink(card.githubLink) || IsRealLink(card.liveLink)
    ensures r.features == CommaList.CreateListItems(card.features)
    ensures r.tech == CommaList.CreateListItems(card.tech)
    ensures r.images == CommaList.ParseList(card.images)
    ensures |r.images| == 0 ==> r.slider.frame == Carousel.Placeholder && !r.slider.prev.shown && !r.slider.next.shown
    ensures |r.images| == 0 ==>
      && r.slider.storedIndex == prior.slider.storedIndex
      && r.slider.prev.disabled == prior.slider.prev.disabled
      && r.slider.next.disabled == prior.slider.next.disabled
    ensures |r.images| > 0 ==> Carousel.Rendered(r.images, r.slider) && r.slider.storedIndex == 0
  {
    var links := ModalLinks(card.githubLink, card.liveLink);
    var images := CommaList.ParseList(card.images);
    ModalView(
      true,
      OrEmpty(card.title), OrEmpty(card.about), OrEmpty(card.challenges),
      links, links != [],
      CommaList.CreateListItems(card.features), CommaList.CreateListItems(card.tech),
      images, Carousel.ShowImage(images, 0, prior.slider))
  }

  /**
    Empty, blank or missing attributes degrade to hidden parts, never to an
    error: no images gives the placeholder with both controls hidden, and no
    features or tech hides that section.
   */
  lemma {:induction false} OpenModalBlankFields(card: Projects.Card, prior: ModalView)
    ensures IsBlank(OrEmpty(card.images)) ==>
      OpenModal(card, prior).slider.frame == Carousel.Placeholder
      && !OpenModal(card, prior).slider.prev.shown && !OpenModal(card, prior).slider.next.shown
    ensures IsBlank(OrEmpty(card.features)) ==> !OpenModal(card, prior).features.shown
    ensures IsBlank(OrEmpty(card.tech)) ==> !OpenModal(card, prior).tech.shown
  {
    if IsBlank(OrEmpty(card.images)) {
      CommaList.ParseListBlank(card.images);
    }
    if IsBlank(OrEmpty(card.features)) {
      CommaList.ParseListBlank(card.features);
    }
    if IsBlank(OrEmpty(card.tech)) {
      CommaList.ParseListBlank(card.tech);
    }
  }

  /** `closeModal`: hides the modal and clears nothing else. */
  function CloseModal(m: ModalView): (r: ModalView)
    ensures !r.visible
    ensures r.(visible := m.visible) == m
  {
    m.(visible := false)
  }

  /** The events that may dismiss the modal. */
  datatype Dismissal =
    | CloseButton                   // a click on the close control
    | ModalClick(onBackdrop: bool)  // a click inside the modal element, on its backdrop or its content
    | KeyDown(key: string)          // a key pressed anywhere in the document

  /** Whether the event is one that closes a visible modal. */
  predicate Closes(e: Dismissal) {
    match e
    case CloseButton => true
    case ModalClick(onBackdrop) => onBackdrop
    case KeyDown(key) => key == "Escape"
  }

  /**
    The three dismissal handlers. The close control and a click whose target
    is the modal element itself close it; a click on the content does not;
    Escape closes it only while it is visible, and any other key does nothing.
   */
  function Dismiss(m: ModalView, e: Dismissal): (r: ModalView)
    ensures r.visible <==> m.visible && !Closes(e)
    ensures r.(visible := m.visible) == m
  {
    match e
    case CloseButton => CloseModal(m)
    case ModalClick(onBackdrop) => if onBackdrop then CloseModal(m) else m
    case KeyDown(key) => if key == "Escape" && m.visible then CloseModal(m) else m
  }

  /** Every closing event ends in the same state as `closeModal`. */
  lemma {:induction false} DismissalsConverge(m: ModalView, e: Dismissal)
    requires Closes(e)
    ensures Dismiss(m, e) == CloseModal(m)
  {
  }

  /**
    A click on a card opens its modal, unless it landed on the card's own
    GitHub link, which is left to navigate and does not touch the modal.
   */
  function CardClick(card: Projects.Card, onGithubLink: bool, m: ModalView): (r: ModalView)
    ensures onGithubLink ==> r == m
    ensures !onGithubLink ==> r == OpenModal(card, m)
  {
    if onGithubLink then m else OpenModal(card, m)
  }

  /**
    A card whose `data-images` is `"a.jpg,b.jpg,c.jpg"`: the modal opens on
    `a.jpg`, three clicks on next reach `c.jpg` with next disabled, and a
    fourth click changes nothing.
   */
  lemma {:induction false} ThreeImageScenario(card: Projects.Card, prior: ModalView)
    requires card.images == Present("a.jpg,b.jpg,c.jpg")
    ensures var m := OpenModal(card, prior);
      && m.images == ["a.jpg", "b.jpg", "c.jpg"]
      && m.slider.frame == Carousel.Picture(0, "a.jpg")
      && Carousel.NextClicks(m.images, m.slider, 3).storedIndex == 2
      && Carousel.NextClicks(m.images, m.slider, 3).frame == Carousel.Picture(2, "c.jpg")
      && Carousel.NextClicks(m.images, m.slider, 3).next.disabled
      && Carousel.Next(m.images, Carousel.NextClicks(m.images, m.slider, 3)) == Carousel.NextClicks(m.images, m.slider, 3)
  {
    var items := ["a.jpg", "b.jpg", "c.jpg"];
    assert Join(items) == "a.jpg,b.jpg,c.jpg";
    forall k | 0 <= k < |items| ensures ',' !in items[k] && !IsBlank(items[k]) {
      assert !IsWhitespace(items[k][0]);
    }
    CommaList.ParseJoin(items);
    var m := OpenModal(card, prior);
    Carousel.NextClicksSaturate(items, m.slider, 3);
    Carousel.NextAtLastIsNoOp(items, Carousel.NextClicks(items, m.slider, 3));
  }
}
