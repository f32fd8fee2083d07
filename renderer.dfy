/** The list-building part of `renderSlide` and the guard of `createLayer`: which
    items of a slide are drawn, and in which stacking order. */
module Renderer {
  import opened Items
  import opened Sorting
  import opened SlideBuilder

  /** An image element on the stage: the item it shows, its `src`, its `alt`
      text, its `z-index`, and whether it was given a box (a four-number bbox);
      the percentage geometry itself is not modelled. */
  datatype Layer = Layer(item: RawItem, src: string, alt: string, zIndex: int, positioned: bool)

  /** `item.human_name || item.name || 'layer'`. */
  function AltText(item: RawItem): (r: string)
    ensures r != ""
    ensures r == item.humanName || r == item.name || r == "layer"
    ensures item.humanName != "" ==> r == item.humanName
    ensures item.humanName == "" && item.name != "" ==> r == item.name
  {
    if item.humanName != "" then item.humanName
    else if item.name != "" then item.name
    else "layer"
  }

  /** `createLayer`: no element for an item without a bitmap; otherwise an image
      of `static/<bitmap>` stacked at `parseIndex(index)`. */
  function CreateLayer(item: RawItem): (r: Option<Layer>)
    ensures r.Some? <==> HasBitmap(item)
    ensures r.Some? ==> r.value.item == item && r.value.zIndex == ItemIndex(item)
  {
    if !HasBitmap(item) then None
    else Some(Layer(item, "static/" + item.bitmap.value, AltText(item), ItemIndex(item), HasBox(item)))
  }

  /** `slide.photos[currentPhoto] || slide.photos[0]`: the photo at the current
      position, the first photo when that position holds none, and nothing when
      the slide has no photos. */
  function SelectedPhoto(photos: seq<RawItem>, current: int): (r: Option<RawItem>)
    ensures r.None? <==> photos == []
    ensures 0 <= current < |photos| ==> r == Some(photos[current])
    ensures photos != [] && !(0 <= current < |photos|) ==> r == Some(photos[0])
  {
    if 0 <= current < |photos| then Some(photos[current])
    else if |photos| > 0 then Some(photos[0])
    else None
  }

  function OptionSeq(o: Option<RawItem>): seq<RawItem> {
    if o.Some? then [o.value] else []
  }

  /** The `composite` list before sorting: the background, the selected photo,
      then every static layer. */
  function Composite(slide: Slide, current: int): (r: seq<RawItem>)
    ensures |r| == |slide.staticLayers| + (if slide.background.Some? then 1 else 0) + (if slide.photos != [] then 1 else 0)
    ensures r[|r| - |slide.staticLayers|..] == slide.staticLayers
  {
    OptionSeq(slide.background) + OptionSeq(SelectedPhoto(slide.photos, current)) + slide.staticLayers
  }

  /** `forEach(layer => { const el = createLayer(...); if (el) append(el) })`. */
  function Layers(items: seq<RawItem>): (r: seq<Layer>)
    ensures |r| <= |items|
    ensures forall i :: 0 <= i < |r| ==> HasBitmap(r[i].item) && r[i].zIndex == ItemIndex(r[i].item)
  {
    if items == [] then []
    else
      var last := CreateLayer(items[|items| - 1]);
      Layers(items[..|items| - 1]) + (if last.Some? then [last.value] else [])
  }

  /** What the stage shows after `renderSlide`, bottom to top. */
  function Rendered(slide: Slide, current: int): (r: seq<Layer>)
    ensures |r| <= |Composite(slide, current)|
  {
    Layers(SortBy(Composite(slide, current), ItemIndex))
  }

  function LayerItems(layers: seq<Layer>): (r: seq<RawItem>)
    ensures |r| == |layers| && forall i :: 0 <= i < |r| ==> r[i] == layers[i].item
  {
    seq(|layers|, i requires 0 <= i < |layers| => layers[i].item)
  }

  /** `renderSlide`: push the background and the selected photo, append the
      static layers, sort the list in place by `parseIndex(index)`, and create an
      element for every item that has a bitmap. */
  method RenderComposite(slide: Slide, current: int) returns (layers: seq<Layer>)
    ensures layers == Rendered(slide, current)
  {
    var composite := CollectComposite(slide, current);
    var a := new RawItem[|composite|](i requires 0 <= i < |composite| => composite[i]);
    assert a[..] == composite;
    SortInPlace(a, ItemIndex);
    layers := AppendElements(a);
  }

  /** The pushes that fill `composite`. */
  method CollectComposite(slide: Slide, current: int) returns (composite: seq<RawItem>)
    ensures composite == Composite(slide, current)
  {
    composite := [];
    if slide.background.Some? {
      composite := composite + [slide.background.value];
    }
    var photo: Option<RawItem>;
    if 0 <= current < |slide.photos| {
      photo := Some(slide.photos[current]);
    } else if |slide.photos| > 0 {
      photo := Some(slide.photos[0]);
    } else {
      photo := None;
    }
    if photo.Some? {
      composite := composite + [photo.value];
    }
    composite := composite + slide.staticLayers;
  }

  /** The `forEach` over the sorted list: one element per item with a bitmap, in
      list order. */
  method AppendElements(a: array<RawItem>) returns (layers: seq<Layer>)
    ensures layers == Layers(a[..])
  {
    layers := [];
    var i := 0;
    while i < a.Length
      invariant 0 <= i <= a.Length
      invariant layers == Layers(a[..i])
    {
      var element := CreateLayer(a[i]);
      if element.Some? {
        layers := layers + [element.value];
      }
      assert a[..i + 1][..i] == a[..i];
      i := i + 1;
    }
    assert a[..a.Length] == a[..];
  }

  // ---------------------------------------------------------------------------
  // Properties

  /** Creating elements keeps exactly the items with a bitmap, in order. */
  lemma {:induction false} LayersKeepBitmapItems(items: seq<RawItem>)
    ensures LayerItems(Layers(items)) == Filter(items, HasBitmap)
    ensures forall i :: 0 <= i < |Layers(items)| ==> Layers(items)[i].zIndex == ItemIndex(Layers(items)[i].item)
  {
    if items != [] {
      LayersKeepBitmapItems(items[..|items| - 1]);
    }
  }

  /** The rendered stack, bottom to top: every item of the composite that has a
      bitmap, ascending by `parseIndex(index)` (the element's z-index), and among
      equal indices in composite order. */
  lemma RenderedOrder(slide: Slide, current: int)
    ensures var items := LayerItems(Rendered(slide, current));
      && (forall i, j :: 0 <= i < j < |items| ==> Rendered(slide, current)[i].zIndex <= Rendered(slide, current)[j].zIndex)
      && multiset(items) == multiset(Filter(Composite(slide, current), HasBitmap))
      && forall k :: KeyClass(items, ItemIndex, k) == Filter(KeyClass(Composite(slide, current), ItemIndex, k), HasBitmap)
  {
    RenderedItems(slide, current);
    RenderedAscending(slide, current);
    RenderedPermutation(slide, current);
    RenderedStable(slide, current);
  }

  lemma RenderedItems(slide: Slide, current: int)
    ensures LayerItems(Rendered(slide, current)) == Filter(SortBy(Composite(slide, current), ItemIndex), HasBitmap)
  {
    LayersKeepBitmapItems(SortBy(Composite(slide, current), ItemIndex));
  }

  lemma RenderedAscending(slide: Slide, current: int)
    ensures var rendered := Rendered(slide, current);
      forall i, j :: 0 <= i < j < |rendered| ==> rendered[i].zIndex <= rendered[j].zIndex
  {
    var sorted := SortBy(Composite(slide, current), ItemIndex);
    SortByCorrect(Composite(slide, current), ItemIndex);
    RenderedItems(slide, current);
    LayersKeepBitmapItems(sorted);
    FilterKeepsSorted(sorted, HasBitmap, ItemIndex);
  }

  lemma RenderedPermutation(slide: Slide, current: int)
    ensures multiset(LayerItems(Rendered(slide, current))) == multiset(Filter(Composite(slide, current), HasBitmap))
  {
    var composite := Composite(slide, current);
    var sorted := SortBy(composite, ItemIndex);
    SortByCorrect(composite, ItemIndex);
    RenderedItems(slide, current);
    FilterMultiset(sorted, HasBitmap);
    FilterMultiset(composite, HasBitmap);
  }

  lemma RenderedStable(slide: Slide, current: int)
    ensures forall k :: KeyClass(LayerItems(Rendered(slide, current)), ItemIndex, k) ==
                        Filter(KeyClass(Composite(slide, current), ItemIndex, k), HasBitmap)
  {
    var composite := Composite(slide, current);
    var sorted := SortBy(composite, ItemIndex);
    SortByCorrect(composite, ItemIndex);
    RenderedItems(slide, current);
    forall k ensures KeyClass(Filter(sorted, HasBitmap), ItemIndex, k) == Filter(KeyClass(composite, ItemIndex, k), HasBitmap) {
      KeyClassOfFilter(sorted, HasBitmap, ItemIndex, k);
    }
  }

  /** An item is drawn iff it has a bitmap and is the background, the selected
      photo or a static layer. */
  lemma RenderedMembership(slide: Slide, current: int, x: RawItem)
    ensures x in LayerItems(Rendered(slide, current)) <==>
      HasBitmap(x) &&
      (slide.background == Some(x) || SelectedPhoto(slide.photos, current) == Some(x) || x in slide.staticLayers)
  {
    var composite := Composite(slide, current);
    var items := LayerItems(Rendered(slide, current));
    var drawn := Filter(composite, HasBitmap);
    assert x in items <==> x in drawn by {
      RenderedOrder(slide, current);
      assert multiset(items) == multiset(drawn);
      assert x in items <==> x in multiset(items);
      assert x in drawn <==> x in multiset(drawn);
    }
    FilterMembers(composite, HasBitmap);
    CompositeMembers(slide, current, x);
  }

  lemma CompositeMembers(slide: Slide, current: int, x: RawItem)
    ensures x in Composite(slide, current) <==>
      slide.background == Some(x) || SelectedPhoto(slide.photos, current) == Some(x) || x in slide.staticLayers
  {
  }

  /** At most one photo is drawn: on a slide built by `buildSlide`, the photos
      in the composite are exactly the selected one. */
  lemma OnePhotoInComposite(slide: Slide, current: int)
    requires WellFormed(slide)
    ensures Filter(Composite(slide, current), IsPhoto) == OptionSeq(SelectedPhoto(slide.photos, current))
  {
    var bg, photo := OptionSeq(slide.background), OptionSeq(SelectedPhoto(slide.photos, current));
    FilterAppend(bg + photo, slide.staticLayers, IsPhoto);
    FilterAppend(bg, photo, IsPhoto);
    assert Filter(bg, IsPhoto) == [] by {
      if slide.background.Some? {
        RolesExclusive(slide.background.value);
        assert bg[..0] == [];
      }
    }
    assert Filter(photo, IsPhoto) == photo by {
      if photo != [] {
        assert photo[..0] == [];
      }
    }
    NoPhotoAmong(slide.staticLayers);
  }

  lemma {:induction false} NoPhotoAmong(layers: seq<RawItem>)
    requires forall i :: 0 <= i < |layers| ==> IsText(layers[i]) || IsOverlay(layers[i])
    ensures Filter(layers, IsPhoto) == []
  {
    if layers != [] {
      NoPhotoAmong(layers[..|layers| - 1]);
      RolesExclusive(layers[|layers| - 1]);
    }
  }
}
