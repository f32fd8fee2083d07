/** `buildSlide`: turns the raw items of one descriptor into a slide — the
    coordinate basis, the background, the photo variants ordered by the number in
    their name, and the static layers (texts, then overlays) ordered by `index`. */
module SlideBuilder {
  import opened Items
  import opened Sorting

  /** The coordinate basis used when the background gives none. */
  const DefaultWidth: int := 4000
  const DefaultHeight: int := 2250

  datatype Slide = Slide(
    id: string,
    baseWidth: int,
    baseHeight: int,
    background: Option<RawItem>,
    photos: seq<RawItem>,
    staticLayers: seq<RawItem>)

  // ---------------------------------------------------------------------------
  // Roles

  /** Named exactly `bg` (case-sensitive) and carrying a bitmap. */
  predicate IsBackground(item: RawItem) {
    item.humanName == "bg" && HasBitmap(item)
  }

  /** Named `photo<digits>`, any letter case; a bitmap is not required. */
  predicate IsPhoto(item: RawItem) {
    IsPhotoName(item.humanName)
  }

  /** Named `text<digits>` (any letter case) or exactly `slide_title`; a bitmap
      is not required. */
  predicate IsText(item: RawItem) {
    IsTextName(item.humanName) || item.humanName == "slide_title"
  }

  /** Carries a bitmap and has none of the other role names. */
  predicate IsOverlay(item: RawItem) {
    HasBitmap(item) && item.humanName != "bg" && !IsPhoto(item) && !IsText(item)
  }

  /** The stacking key: `parseIndex(item.index)`. */
  function ItemIndex(item: RawItem): int {
    ParseIndex(item.index)
  }

  /** The photo ordering key: the digits of the name read as a decimal number
      (`parseInt(name.replace(/[^0-9]/g, ''), 10)`). */
  function PhotoNumber(item: RawItem): int {
    DigitsValue(Filter(item.humanName, IsDigit))
  }

  /** `rawItems.find(item => item.human_name === 'bg' && item.bitmap)`. */
  function FindBackground(items: seq<RawItem>): (r: Option<RawItem>)
    ensures r.None? <==> forall i :: 0 <= i < |items| ==> !IsBackground(items[i])
    ensures r.Some? ==> exists i :: 0 <= i < |items| && items[i] == r.value && IsBackground(r.value) &&
                          forall j :: 0 <= j < i ==> !IsBackground(items[j])
  {
    if items == [] then None
    else if IsBackground(items[0]) then Some(items[0])
    else
      var r := FindBackground(items[1..]);
      assert r.Some? ==> exists i :: 0 <= i < |items[1..]| && items[1..][i] == r.value && IsBackground(r.value) &&
                          forall j :: 0 <= j < i ==> !IsBackground(items[1..][j]);
      r
  }

  function BaseWidth(background: Option<RawItem>): int {
    if background.Some? && HasBox(background.value) then
      background.value.bbox.value[2] - background.value.bbox.value[0]
    else DefaultWidth
  }

  function BaseHeight(background: Option<RawItem>): int {
    if background.Some? && HasBox(background.value) then
      background.value.bbox.value[3] - background.value.bbox.value[1]
    else DefaultHeight
  }

  /** `photoItems`: the photo-named items, ascending by the number in the name. */
  function PhotoItems(items: seq<RawItem>): (r: seq<RawItem>)
    ensures multiset(r) == multiset(Filter(items, IsPhoto))
    ensures SortedBy(r, PhotoNumber)
  {
    SortByCorrect(Filter(items, IsPhoto), PhotoNumber);
    SortBy(Filter(items, IsPhoto), PhotoNumber)
  }

  /** `textItems`: the text-named items and `slide_title`, in descriptor order. */
  function TextItems(items: seq<RawItem>): (r: seq<RawItem>)
    ensures forall x :: x in r <==> x in items && IsText(x)
  {
    FilterMembers(items, IsText);
    Filter(items, IsText)
  }

  /** `staticOverlays`: the items with a bitmap and no role name, in descriptor
      order. */
  function StaticOverlays(items: seq<RawItem>): (r: seq<RawItem>)
    ensures forall x :: x in r <==> x in items && IsOverlay(x)
  {
    FilterMembers(items, IsOverlay);
    Filter(items, IsOverlay)
  }

  /** `buildSlide(rawItems, order)`. The basis is the first background's bbox
      extent when it has four numbers, and 4000 by 2250 otherwise. */
  function BuildSlide(items: seq<RawItem>, order: string): (r: Slide)
    ensures r.id == order
    ensures r.background == FindBackground(items)
    ensures r.background.Some? && HasBox(r.background.value) ==>
              var b := r.background.value.bbox.value;
              r.baseWidth == b[2] - b[0] && r.baseHeight == b[3] - b[1]
    ensures !(r.background.Some? && HasBox(r.background.value)) ==>
              r.baseWidth == 4000 && r.baseHeight == 2250
  {
    var background := FindBackground(items);
    Slide(order, BaseWidth(background), BaseHeight(background), background,
          PhotoItems(items), SortBy(TextItems(items) + StaticOverlays(items), ItemIndex))
  }

  // ---------------------------------------------------------------------------
  // Properties of the photo list

  lemma {:induction false} FilterAllDigits(s: string)
    requires AllDigits(s)
    ensures Filter(s, IsDigit) == s
  {
    if s != [] {
      FilterAllDigits(s[..|s| - 1]);
      assert s == s[..|s| - 1] + [s[|s| - 1]];
    }
  }

  lemma {:induction false} FilterNoDigits(s: string)
    requires forall i :: 0 <= i < |s| ==> !IsDigit(s[i])
    ensures Filter(s, IsDigit) == []
  {
    if s != [] {
      FilterNoDigits(s[..|s| - 1]);
    }
  }

  lemma PrefixHasNoDigits(s: string, prefix: string)
    requires MatchesNumbered(s, prefix)
    requires forall i :: 0 <= i < |prefix| ==> 'a' <= prefix[i] <= 'z'
    ensures forall i :: 0 <= i < |prefix| ==> !IsDigit(s[..|prefix|][i])
  {
    forall i | 0 <= i < |prefix| ensures !IsDigit(s[..|prefix|][i]) {
      assert ToLower(s[i]) == prefix[i];
    }
  }

  /** For a photo the sort key is the number after `photo`. */
  lemma PhotoNumberIsSuffix(item: RawItem)
    requires IsPhoto(item)
    ensures PhotoNumber(item) == DigitsValue(item.humanName[5..])
  {
    var s := item.humanName;
    var prefix, suffix := s[..5], s[5..];
    assert s == prefix + suffix;
    PrefixHasNoDigits(s, "photo");
    FilterNoDigits(prefix);
    FilterAllDigits(suffix);
    FilterAppend(prefix, suffix, IsDigit);
    assert Filter(s, IsDigit) == suffix;
  }

  /** `photos` holds exactly the photo-named items, bitmap or not, as a
      permutation of them, ascending by the number in the name, with equal
      numbers in input order. */
  lemma PhotosCorrect(items: seq<RawItem>, order: string)
    ensures var photos := BuildSlide(items, order).photos;
      && multiset(photos) == multiset(Filter(items, IsPhoto))
      && (forall x :: x in photos <==> x in items && IsPhoto(x))
      && SortedBy(photos, PhotoNumber)
      && forall k :: KeyClass(photos, PhotoNumber, k) == KeyClass(Filter(items, IsPhoto), PhotoNumber, k)
  {
    var photos := BuildSlide(items, order).photos;
    var candidates := Filter(items, IsPhoto);
    SortByCorrect(candidates, PhotoNumber);
    FilterMembers(items, IsPhoto);
    forall x ensures x in photos <==> x in items && IsPhoto(x) {
      assert x in photos <==> x in multiset(candidates);
    }
  }

  /** Numeric, not lexicographic: `photo1, photo10, photo2` become
      `photo1, photo2, photo10`. */
  lemma PhotoOrderExample(bitmap: Option<string>)
    ensures var p1 := RawItem("photo1", bitmap, None, Absent, "");
            var p10 := RawItem("photo10", bitmap, None, Absent, "");
            var p2 := RawItem("photo2", bitmap, None, Absent, "");
            BuildSlide([p1, p10, p2], "01").photos == [p1, p2, p10]
  {
    var p1 := RawItem("photo1", bitmap, None, Absent, "");
    var p10 := RawItem("photo10", bitmap, None, Absent, "");
    var p2 := RawItem("photo2", bitmap, None, Absent, "");
    ExampleKeys(p1, p10, p2);
    var items := [p1, p10, p2];
    assert items[..2] == [p1, p10] && items[..2][..1] == [p1] && [p1][..0] == [];
    assert Filter([p1], IsPhoto) == [p1];
    assert Filter([p1, p10], IsPhoto) == [p1, p10];
    assert Filter(items, IsPhoto) == items;
    ExampleSort(p1, p10, p2);
  }

  lemma ExampleKeys(p1: RawItem, p10: RawItem, p2: RawItem)
    requires p1.humanName == "photo1" && p10.humanName == "photo10" && p2.humanName == "photo2"
    ensures IsPhoto(p1) && IsPhoto(p10) && IsPhoto(p2)
    ensures PhotoNumber(p1) == 1 && PhotoNumber(p10) == 10 && PhotoNumber(p2) == 2
  {
    PhotoNameExample("photo1");
    PhotoNameExample("photo10");
    PhotoNameExample("photo2");
    PhotoNumberIsSuffix(p1);
    PhotoNumberIsSuffix(p10);
    PhotoNumberIsSuffix(p2);
    assert "photo1"[5..] == "1" && "photo2"[5..] == "2" && "photo10"[5..] == "10";
    assert "10"[..1] == "1";
  }

  lemma ExampleSort(p1: RawItem, p10: RawItem, p2: RawItem)
    requires PhotoNumber(p1) == 1 && PhotoNumber(p10) == 10 && PhotoNumber(p2) == 2
    ensures SortBy([p1, p10, p2], PhotoNumber) == [p1, p2, p10]
  {
    assert [p1, p10, p2][..2] == [p1, p10] && [p1, p10][..1] == [p1] && [p1][..0] == [];
    assert SortBy([p1], PhotoNumber) == [p1];
    assert SortBy([p1, p10], PhotoNumber) == [p1, p10];
    assert Insert([p1], p2, PhotoNumber) == [p1, p2];
    assert Insert([p1, p10], p2, PhotoNumber) == [p1, p2, p10];
  }

  lemma PhotoNameExample(s: string)
    requires |s| > 5 && s[..5] == "photo" && AllDigits(s[5..])
    ensures IsPhotoName(s)
  {
    forall i | 0 <= i < 5 ensures ToLower(s[i]) == "photo"[i] {
      assert s[i] == s[..5][i];
    }
  }

  // ---------------------------------------------------------------------------
  // Properties of the static layers

  /** Membership: an item is a static layer iff it is a text (bitmap or not)
      or an overlay. */
  lemma StaticMembership(items: seq<RawItem>, order: string)
    ensures forall x :: x in BuildSlide(items, order).staticLayers <==> x in items && (IsText(x) || IsOverlay(x))
  {
    var merged := TextItems(items) + StaticOverlays(items);
    SortByCorrect(merged, ItemIndex);
    FilterMembers(items, IsText);
    FilterMembers(items, IsOverlay);
    forall x ensures x in BuildSlide(items, order).staticLayers <==> x in items && (IsText(x) || IsOverlay(x)) {
      assert x in BuildSlide(items, order).staticLayers <==> x in multiset(merged);
    }
  }

  /** Order: the static layers are a permutation of texts followed by overlays,
      ascending by `parseIndex(index)`, and on equal indices texts come first,
      each group in input order. */
  lemma StaticOrder(items: seq<RawItem>, order: string)
    ensures var layers := BuildSlide(items, order).staticLayers;
      && multiset(layers) == multiset(TextItems(items) + StaticOverlays(items))
      && SortedBy(layers, ItemIndex)
      && forall k :: KeyClass(layers, ItemIndex, k) ==
                     KeyClass(TextItems(items), ItemIndex, k) + KeyClass(StaticOverlays(items), ItemIndex, k)
  {
    var merged := TextItems(items) + StaticOverlays(items);
    SortByCorrect(merged, ItemIndex);
    forall k ensures KeyClass(merged, ItemIndex, k) ==
                     KeyClass(TextItems(items), ItemIndex, k) + KeyClass(StaticOverlays(items), ItemIndex, k) {
      KeyClassAppend(TextItems(items), StaticOverlays(items), ItemIndex, k);
    }
  }

  /** A slide whose parts carry the roles BuildSlide gives them. */
  predicate WellFormed(s: Slide) {
    (s.background.Some? ==> IsBackground(s.background.value)) &&
    (forall i :: 0 <= i < |s.photos| ==> IsPhoto(s.photos[i])) &&
    (forall i :: 0 <= i < |s.staticLayers| ==> IsText(s.staticLayers[i]) || IsOverlay(s.staticLayers[i]))
  }

  lemma RolesExclusive(x: RawItem)
    ensures IsBackground(x) ==> !IsPhoto(x) && !IsText(x) && !IsOverlay(x)
    ensures IsPhoto(x) ==> !IsText(x) && !IsOverlay(x)
    ensures IsText(x) ==> !IsOverlay(x)
  {
    NamePatternsDisjoint(x.humanName);
  }

  /** Classification: no item is both a photo and a static layer, the
      background is in neither list, and no `bg`-named item is a static layer. */
  lemma BuildSlideDisjoint(items: seq<RawItem>, order: string)
    ensures WellFormed(BuildSlide(items, order))
    ensures var s := BuildSlide(items, order);
      && (forall x :: x in s.photos ==> x !in s.staticLayers)
      && (forall x :: x in s.staticLayers ==> x.humanName != "bg")
      && (s.background.Some? ==> s.background.value !in s.photos && s.background.value !in s.staticLayers)
  {
    var s := BuildSlide(items, order);
    PhotosCorrect(items, order);
    StaticMembership(items, order);
    forall x ensures x in s.photos ==> x !in s.staticLayers {
      RolesExclusive(x);
    }
    forall x | x in s.staticLayers ensures x.humanName != "bg" {
      NamePatternsDisjoint(x.humanName);
    }
    if s.background.Some? {
      RolesExclusive(s.background.value);
    }
  }

  /** Where each item of the descriptor ends up. Every item with a bitmap that is
      not named `bg` is in exactly one of the two lists; a `bg` item is only ever
      the background, and only if it is the first `bg` item with a bitmap (a
      second one lands nowhere); an item without a bitmap that has neither a
      photo nor a text name lands nowhere. */
  lemma Classification(items: seq<RawItem>, order: string, x: RawItem)
    requires x in items
    ensures var s := BuildSlide(items, order);
      && (HasBitmap(x) && x.humanName != "bg" ==> (x in s.photos <==> x !in s.staticLayers))
      && (IsPhoto(x) <==> x in s.photos)
      && (IsText(x) ==> x in s.staticLayers)
      && (x.humanName == "bg" ==> x !in s.photos && x !in s.staticLayers)
      && (!HasBitmap(x) && !IsPhoto(x) && !IsText(x) ==>
            x !in s.photos && x !in s.staticLayers && s.background != Some(x))
  {
    PhotosCorrect(items, order);
    StaticMembership(items, order);
    RolesExclusive(x);
    NamePatternsDisjoint(x.humanName);
  }

  /** A descriptor holding just a `bg` item with bbox `[0, 0, 1000, 500]` gives a
      1000 by 500 slide with that background and no other layers. */
  lemma SingleBackgroundScenario(bitmap: string, index: IndexField)
    requires bitmap != ""
    ensures var bg := RawItem("bg", Some(bitmap), Some([0, 0, 1000, 500]), index, "");
            var s := BuildSlide([bg], "01");
            s.baseWidth == 1000 && s.baseHeight == 500 && s.background == Some(bg) &&
            s.photos == [] && s.staticLayers == []
  {
    var bg := RawItem("bg", Some(bitmap), Some([0, 0, 1000, 500]), index, "");
    RolesExclusive(bg);
    NamePatternsDisjoint("bg");
    assert [bg][..0] == [];
  }
}
