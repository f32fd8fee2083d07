/** The navigation controller: the position `(currentSlide, currentPhoto)` over
    the loaded slides, the two bounds-checked commands `goToSlide` and
    `changePhoto` with the status line each writes, the HUD labels, the arrow-key
    mapping of `handleKey`, and `start`. Each command is first given as a pure
    step on a position; the `Player` class holds the mutable state and its
    methods are proved to take exactly those steps. */
module Navigation {
  import opened Items
  import opened SlideBuilder
  import opened Renderer
  import opened Discovery

  const EdgeMessage: string := "Reached the edge of the deck."
  const NoPhotosMessage: string := "This slide has no photo layers."
  const LastPhotoMessage: string := "Already at last photo."
  const FirstPhotoMessage: string := "Already at first photo."
  const ReadyMessage: string := "Ready. Use arrow keys to navigate."
  const LoadFailedMessage: string := "Unable to load slides."
  const NoPhotosLabel: string := "No photos on this slide"

  /** A position: `currentSlide` and `currentPhoto`. */
  datatype Nav = Nav(slide: int, photo: int)

  /** What one command does: the next position, the status line it writes (if
      it writes one), and whether it re-renders the stage. */
  datatype Step = Step(next: Nav, status: Option<string>, rerender: bool)

  function Max(a: int, b: int): int {
    if a < b then b else a
  }

  function Min(a: int, b: int): int {
    if a < b then a else b
  }

  /** `slides[i]?.photos.length || 0`. */
  function PhotoCount(slides: seq<Slide>, i: int): nat {
    if 0 <= i < |slides| then |slides[i].photos| else 0
  }

  /** The positions the player can be in: on an existing slide (on slide 0 when
      none are loaded) and on one of its photos (on 0 when it has none). */
  predicate NavValid(slides: seq<Slide>, nav: Nav) {
    (if |slides| == 0 then nav.slide == 0 else 0 <= nav.slide < |slides|) &&
    0 <= nav.photo < Max(1, PhotoCount(slides, nav.slide))
  }

  // ---------------------------------------------------------------------------
  // goToSlide

  /** `goToSlide(target)`: nothing at all without slides; the edge message and
      no move for a target outside the deck; otherwise the target slide, its
      first photo, a re-render and "Now on slide N.". */
  function GoTo(slides: seq<Slide>, nav: Nav, target: int): (r: Step)
    ensures |slides| == 0 ==> r == Step(nav, None, false)
    ensures |slides| > 0 && !(0 <= target < |slides|) ==> r == Step(nav, Some(EdgeMessage), false)
    ensures 0 <= target < |slides| ==> r.next == Nav(target, 0) && r.rerender
  {
    if |slides| == 0 then Step(nav, None, false)
    else if target < 0 || target >= |slides| then Step(nav, Some(EdgeMessage), false)
    else Step(Nav(target, 0), Some("Now on slide " + Decimal(target + 1) + "."), true)
  }

  /** goToSlide never leaves the valid positions, and a move to another slide
      always starts at its first photo. */
  lemma GoToKeepsValid(slides: seq<Slide>, nav: Nav, target: int)
    requires NavValid(slides, nav)
    ensures NavValid(slides, GoTo(slides, nav, target).next)
    ensures GoTo(slides, nav, target).next.slide != nav.slide ==> GoTo(slides, nav, target).next.photo == 0
  {
  }

  /** The status line of a successful move names the new slide, counting from 1. */
  lemma GoToReportsSlide(slides: seq<Slide>, nav: Nav, target: int)
    requires 0 <= target < |slides|
    ensures var msg := GoTo(slides, nav, target).status.value;
      |msg| > 14 && msg[..13] == "Now on slide " && msg[|msg| - 1] == '.' &&
      AllDigits(msg[13..|msg| - 1]) && DigitsValue(msg[13..|msg| - 1]) == target + 1
  {
    var d := Decimal(target + 1);
    var msg := "Now on slide " + d + ".";
    assert msg[13..|msg| - 1] == d;
    DecimalRoundTrip(target + 1);
  }

  /** Moving forward one slide and back again returns to the slide left, on its
      first photo; at the last slide the forward move is refused and repeating it
      changes nothing. */
  lemma NextThenPrevious(slides: seq<Slide>, nav: Nav)
    requires NavValid(slides, nav) && |slides| > 0
    ensures nav.slide + 1 < |slides| ==>
      GoTo(slides, GoTo(slides, nav, nav.slide + 1).next, nav.slide).next == Nav(nav.slide, 0)
    ensures nav.slide + 1 == |slides| ==>
      GoTo(slides, nav, nav.slide + 1) == Step(nav, Some(EdgeMessage), false) &&
      GoTo(slides, GoTo(slides, nav, nav.slide + 1).next, nav.slide + 1) == GoTo(slides, nav, nav.slide + 1)
  {
  }

  // ---------------------------------------------------------------------------
  // changePhoto

  /** `Math.min(hi, Math.max(lo, x))`. */
  function Clamp(x: int, lo: int, hi: int): int {
    Min(hi, Max(lo, x))
  }

  /** `changePhoto(delta)`: the no-photo message when the slide has none;
      otherwise the clamped position, reported as a boundary message when it does
      not move (last for a positive delta, first otherwise) and as
      "Photo N of T." with a re-render when it does. */
  function PhotoStep(slides: seq<Slide>, nav: Nav, delta: int): (r: Step)
    requires 0 <= nav.photo
    ensures r.next.slide == nav.slide && r.status.Some?
    ensures r.rerender <==> r.next != nav
    ensures PhotoCount(slides, nav.slide) == 0 ==> r == Step(nav, Some(NoPhotosMessage), false)
  {
    var total := PhotoCount(slides, nav.slide);
    if total == 0 then Step(nav, Some(NoPhotosMessage), false)
    else
      var next := Clamp(nav.photo + delta, 0, total - 1);
      if next == nav.photo then
        Step(nav, Some(if delta > 0 then LastPhotoMessage else FirstPhotoMessage), false)
      else
        Step(Nav(nav.slide, next), Some("Photo " + Decimal(next + 1) + " of " + Decimal(total) + "."), true)
  }

  /** changePhoto stays on the slide, moves to `clamp(photo + delta, 0, T - 1)`,
      re-renders exactly when the photo changes, and keeps the position valid;
      with no photos it changes nothing. */
  lemma ChangePhotoClamps(slides: seq<Slide>, nav: Nav, delta: int)
    requires NavValid(slides, nav)
    ensures var r := PhotoStep(slides, nav, delta);
      var total := PhotoCount(slides, nav.slide);
      && NavValid(slides, r.next)
      && r.next.slide == nav.slide
      && (total == 0 ==> r == Step(nav, Some(NoPhotosMessage), false))
      && (total > 0 ==> r.next.photo == Clamp(nav.photo + delta, 0, total - 1))
      && (r.rerender <==> r.next != nav)
  {
  }

  /** The status line of a successful photo move names the new photo, counting
      from 1, and the slide's photo count. */
  lemma ChangePhotoReportsPhoto(slides: seq<Slide>, nav: Nav, delta: int)
    requires NavValid(slides, nav)
    requires PhotoStep(slides, nav, delta).rerender
    ensures var r := PhotoStep(slides, nav, delta);
      exists d, t :: r.status == Some("Photo " + d + " of " + t + ".") &&
        AllDigits(d) && AllDigits(t) &&
        DigitsValue(d) == r.next.photo + 1 && DigitsValue(t) == PhotoCount(slides, nav.slide)
  {
    var r := PhotoStep(slides, nav, delta);
    var total := PhotoCount(slides, nav.slide);
    var d, t := Decimal(r.next.photo + 1), Decimal(total);
    DecimalRoundTrip(r.next.photo + 1);
    DecimalRoundTrip(total);
    assert r.status == Some("Photo " + d + " of " + t + ".");
  }

  /** At a boundary, pressing on in the same direction is idempotent: once a
      forward move has reached the last photo, every further forward move keeps
      the position and reports "Already at last photo."; likewise backwards and
      the first photo. */
  lemma ChangePhotoIdempotentAtBoundary(slides: seq<Slide>, nav: Nav, delta: int)
    requires NavValid(slides, nav) && delta != 0
    requires PhotoCount(slides, nav.slide) > 0
    ensures var n1 := PhotoStep(slides, nav, delta).next;
      var total := PhotoCount(slides, nav.slide);
      (delta > 0 && n1.photo == total - 1 ==>
         PhotoStep(slides, n1, delta) == Step(n1, Some(LastPhotoMessage), false)) &&
      (delta < 0 && n1.photo == 0 ==>
         PhotoStep(slides, n1, delta) == Step(n1, Some(FirstPhotoMessage), false))
  {
  }

  /** One photo forward and one back is the identity away from the last photo. */
  lemma NextPhotoThenPrevious(slides: seq<Slide>, nav: Nav)
    requires NavValid(slides, nav) && nav.photo + 1 < PhotoCount(slides, nav.slide)
    ensures PhotoStep(slides, PhotoStep(slides, nav, 1).next, -1).next == nav
    ensures PhotoStep(slides, nav, 1).rerender
  {
  }

  // ---------------------------------------------------------------------------
  // updateHud

  /** The two HUD labels. */
  datatype Hud = Hud(slideLabel: string, photoLabel: string)

  /** `updateHud`. */
  function HudLabels(slides: seq<Slide>, nav: Nav): (r: Hud)
    requires NavValid(slides, nav)
    ensures |slides| == 0 ==> r == Hud("Slide 0/0", "Photo 0/0")
    ensures r.photoLabel == NoPhotosLabel <==> |slides| > 0 && PhotoCount(slides, nav.slide) == 0
  {
    if |slides| == 0 then Hud("Slide 0/0", "Photo 0/0")
    else
      var total := |slides[nav.slide].photos|;
      var photoLabel :=
        if total > 0 then "Photo " + Decimal(Min(nav.photo + 1, total)) + "/" + Decimal(total)
        else NoPhotosLabel;
      assert total > 0 ==> photoLabel[0] != NoPhotosLabel[0];
      Hud("Slide " + Decimal(nav.slide + 1) + "/" + Decimal(|slides|), photoLabel)
  }

  /** On a valid position the HUD shows the current photo itself: the
      `Math.min` in the label never clips. After a move to a slide the label
      shows its first photo, or says it has none. */
  lemma HudShowsPosition(slides: seq<Slide>, nav: Nav, target: int)
    requires NavValid(slides, nav) && |slides| > 0
    ensures var total := PhotoCount(slides, nav.slide);
      HudLabels(slides, nav).photoLabel ==
        if total > 0 then "Photo " + Decimal(nav.photo + 1) + "/" + Decimal(total) else NoPhotosLabel
    ensures 0 <= target < |slides| ==>
      var after := GoTo(slides, nav, target).next;
      HudLabels(slides, after).photoLabel ==
        if |slides[target].photos| > 0 then "Photo 1/" + Decimal(|slides[target].photos|) else NoPhotosLabel
  {
    HudPhotoLabel(slides, nav);
    if 0 <= target < |slides| {
      HudAfterMove(slides, nav, target);
    }
  }

  /** After a move to a slide the HUD shows its first photo. */
  lemma HudAfterMove(slides: seq<Slide>, nav: Nav, target: int)
    requires 0 <= target < |slides|
    ensures HudLabels(slides, GoTo(slides, nav, target).next).photoLabel ==
      if |slides[target].photos| > 0 then "Photo 1/" + Decimal(|slides[target].photos|) else NoPhotosLabel
  {
    var after := Nav(target, 0);
    assert GoTo(slides, nav, target).next == after;
    HudPhotoLabel(slides, after);
    assert Decimal(1) == "1";
  }

  /** With slides loaded, the slide label counts the current slide from 1 and
      names the deck's size. */
  lemma HudReportsSlide(slides: seq<Slide>, nav: Nav)
    requires NavValid(slides, nav) && |slides| > 0
    ensures exists d, n :: (HudLabels(slides, nav).slideLabel == "Slide " + d + "/" + n &&
      AllDigits(d) && AllDigits(n) && DigitsValue(d) == nav.slide + 1 && DigitsValue(n) == |slides|)
  {
    var d, n := Decimal(nav.slide + 1), Decimal(|slides|);
    DecimalRoundTrip(nav.slide + 1);
    DecimalRoundTrip(|slides|);
    assert HudLabels(slides, nav).slideLabel == "Slide " + d + "/" + n;
  }

  /** The photo label of a valid position, with the clipping taken out. */
  lemma HudPhotoLabel(slides: seq<Slide>, nav: Nav)
    requires NavValid(slides, nav) && |slides| > 0
    ensures var total := PhotoCount(slides, nav.slide);
      HudLabels(slides, nav).photoLabel ==
        if total > 0 then "Photo " + Decimal(nav.photo + 1) + "/" + Decimal(total) else NoPhotosLabel
  {
    var total := PhotoCount(slides, nav.slide);
    assert total == |slides[nav.slide].photos|;
    if total > 0 {
      assert Min(nav.photo + 1, total) == nav.photo + 1;
    }
  }

  // ---------------------------------------------------------------------------
  // handleKey

  datatype Command = NextSlide | PreviousSlide | NextPhoto | PreviousPhoto

  /** The arrow keys `handleKey` reacts to; any other key is ignored. */
  function KeyCommand(key: string): (r: Option<Command>)
    ensures r.Some? ==> KeyName(r.value) == key
  {
    if key == "ArrowRight" then Some(NextSlide)
    else if key == "ArrowLeft" then Some(PreviousSlide)
    else if key == "ArrowDown" then Some(NextPhoto)
    else if key == "ArrowUp" then Some(PreviousPhoto)
    else None
  }

  function KeyName(c: Command): string {
    match c
    case NextSlide => "ArrowRight"
    case PreviousSlide => "ArrowLeft"
    case NextPhoto => "ArrowDown"
    case PreviousPhoto => "ArrowUp"
  }

  /** Exactly the four arrow keys are commands, one each. */
  lemma KeyRoundTrip(c: Command, key: string)
    ensures KeyCommand(KeyName(c)) == Some(c)
    ensures KeyCommand(key).Some? ==> KeyName(KeyCommand(key).value) == key
  {
  }

  /** The step a command takes: right and left move one slide, down and up one
      photo. */
  function Apply(slides: seq<Slide>, nav: Nav, c: Command): (r: Step)
    requires 0 <= nav.photo
    ensures (c == NextPhoto || c == PreviousPhoto) ==> r.next.slide == nav.slide
    ensures (c == NextSlide || c == PreviousSlide) ==> r.next == nav || r.next.photo == 0
    ensures c == NextSlide && 0 <= nav.slide && nav.slide + 1 < |slides| ==> r.next == Nav(nav.slide + 1, 0)
    ensures c == PreviousSlide && 0 < nav.slide <= |slides| ==> r.next == Nav(nav.slide - 1, 0)
    ensures c == NextPhoto && nav.photo + 1 < PhotoCount(slides, nav.slide) ==> r.next.photo == nav.photo + 1
    ensures c == PreviousPhoto && 0 < nav.photo < PhotoCount(slides, nav.slide) ==> r.next.photo == nav.photo - 1
  {
    match c
    case NextSlide => GoTo(slides, nav, nav.slide + 1)
    case PreviousSlide => GoTo(slides, nav, nav.slide - 1)
    case NextPhoto => PhotoStep(slides, nav, 1)
    case PreviousPhoto => PhotoStep(slides, nav, -1)
  }

  // ---------------------------------------------------------------------------
  // The player's mutable state

  class Player {
    /** The loaded slides: filled once by `Start`, never changed after. */
    var slides: seq<Slide>
    var currentSlide: int
    var currentPhoto: int

    ghost predicate Valid()
      reads this
    {
      NavValid(slides, Nav(currentSlide, currentPhoto))
    }

    function Position(): Nav
      reads this
    {
      Nav(currentSlide, currentPhoto)
    }

    constructor ()
      ensures Valid() && slides == [] && Position() == Nav(0, 0)
    {
      slides := [];
      currentSlide := 0;
      currentPhoto := 0;
    }

    /** `renderSlide`: the stage contents and HUD of the current position;
        nothing when no slide is loaded. */
    method RenderSlide() returns (layers: seq<Layer>, hud: Option<Hud>)
      requires Valid()
      ensures unchanged(this)
      ensures |slides| == 0 ==> layers == [] && hud.None?
      ensures |slides| > 0 ==> layers == Rendered(slides[currentSlide], currentPhoto) &&
                               hud == Some(HudLabels(slides, Position()))
    {
      if |slides| == 0 {
        return [], None;
      }
      layers := RenderComposite(slides[currentSlide], currentPhoto);
      hud := Some(HudLabels(slides, Position()));
    }

    method GoToSlide(target: int) returns (status: Option<string>, rerendered: bool)
      requires Valid()
      modifies this
      ensures Valid() && slides == old(slides)
      ensures Step(Position(), status, rerendered) == GoTo(old(slides), old(Position()), target)
    {
      if |slides| == 0 {
        return None, false;
      }
      if target < 0 || target >= |slides| {
        return Some(EdgeMessage), false;
      }
      currentSlide := target;
      currentPhoto := 0;
      rerendered := true;
      status := Some("Now on slide " + Decimal(currentSlide + 1) + ".");
    }

    method ChangePhoto(delta: int) returns (status: string, rerendered: bool)
      requires Valid()
      modifies this
      ensures Valid() && slides == old(slides)
      ensures Step(Position(), Some(status), rerendered) == PhotoStep(old(slides), old(Position()), delta)
    {
      var totalPhotos := if 0 <= currentSlide < |slides| then |slides[currentSlide].photos| else 0;
      if totalPhotos == 0 {
        return NoPhotosMessage, false;
      }
      var next := Min(totalPhotos - 1, Max(0, currentPhoto + delta));
      if next == currentPhoto {
        status := if delta > 0 then LastPhotoMessage else FirstPhotoMessage;
        return status, false;
      }
      currentPhoto := next;
      rerendered := true;
      status := "Photo " + Decimal(currentPhoto + 1) + " of " + Decimal(totalPhotos) + ".";
    }

    /** `handleKey`: with slides loaded, an arrow key suppresses the browser's
        default and takes its command's step; other keys, and every key while
        no slide is loaded, do nothing. */
    method HandleKey(key: string) returns (preventDefault: bool, status: Option<string>, rerendered: bool)
      requires Valid()
      modifies this
      ensures Valid() && slides == old(slides)
      ensures preventDefault <==> |slides| > 0 && KeyCommand(key).Some?
      ensures !preventDefault ==> Position() == old(Position()) && status.None? && !rerendered
      ensures preventDefault ==>
        Step(Position(), status, rerendered) == Apply(slides, old(Position()), KeyCommand(key).value)
    {
      if |slides| == 0 {
        return false, None, false;
      }
      var command := KeyCommand(key);
      if command.None? {
        return false, None, false;
      }
      preventDefault := true;
      match command.value {
        case NextSlide =>
          status, rerendered := GoToSlide(currentSlide + 1);
        case PreviousSlide =>
          status, rerendered := GoToSlide(currentSlide - 1);
        case NextPhoto =>
          var s;
          s, rerendered := ChangePhoto(1);
          status := Some(s);
        case PreviousPhoto =>
          var s;
          s, rerendered := ChangePhoto(-1);
          status := Some(s);
      }
    }

    /** `start`: discover the deck and load it. A failed discovery shows its
        error (or a generic one when the message is empty), loads nothing and
        leaves the status line alone; otherwise the slides are appended, the
        first position is rendered, the ready message is shown and the error
        box is left alone. `None` means the line is not written. */
    method Start(server: map<string, FetchOutcome>) returns (status: Option<string>, error: Option<string>, layers: seq<Layer>, hud: Option<Hud>)
      requires Valid() && slides == []
      modifies this
      ensures Valid() && Position() == Nav(0, 0)
      ensures !Probe(server, 1).Fetched? ==>
        slides == [] && status.None? && layers == [] && hud.None? &&
        error == Some(if FirstProbeError(Probe(server, 1)) != "" then FirstProbeError(Probe(server, 1)) else LoadFailedMessage)
      ensures Probe(server, 1).Fetched? ==>
        1 <= |slides| <= MaxSlides && LeadingRun(server, slides) &&
        error.None? && status == Some(ReadyMessage) && layers == Rendered(slides[0], 0) &&
        hud == Some(HudLabels(slides, Nav(0, 0)))
      ensures Probe(server, 1).Fetched? ==> RunEnds(server, slides)
    {
      status, error, layers, hud := None, None, [], None;
      var loaded := DiscoverSlides(server);
      if loaded.Failure? {
        error := Some(if loaded.error != "" then loaded.error else LoadFailedMessage);
        return;
      }
      var deck := loaded.value;
      assert 1 <= |deck| <= MaxSlides && LeadingRun(server, deck) && RunEnds(server, deck);
      slides := slides + deck;
      assert slides == deck;
      currentSlide, currentPhoto := 0, 0;
      layers, hud := RenderSlide();
      status := Some(ReadyMessage);
    }
  }
}
