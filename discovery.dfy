/** `discoverSlides`: probe `slide_01.json`, `slide_02.json`, … in order and
    keep every descriptor up to the first one that cannot be had. The fetches
    are given as a map from path to outcome; a path missing from it answers
    with a non-success status, as a missing static file does. */
module Discovery {
  import opened Items
  import opened SlideBuilder

  /** `MAX_SLIDES`: the last sequence number ever probed. */
  const MaxSlides: nat := 99

  /** The message thrown when the very first descriptor is missing. */
  const MissingMessage: string := "No slide json files were found in static/slides."

  /** What fetching and parsing one descriptor gives: its items, a response
      that is not `ok`, or a thrown error with its message: a network failure,
      an unparseable body, or a body `buildSlide` cannot read (one that is not
      an array, or holds a `null` entry, makes `find` or the photo `filter`
      throw). */
  datatype FetchOutcome = Fetched(items: seq<RawItem>) | NotOk | Failed(message: string)

  function DescriptorPath(id: string): string {
    "static/slides/slide_" + id + ".json"
  }

  function Fetch(server: map<string, FetchOutcome>, path: string): FetchOutcome {
    if path in server then server[path] else NotOk
  }

  /** The outcome of probe number `i`. */
  function Probe(server: map<string, FetchOutcome>, i: nat): FetchOutcome {
    Fetch(server, DescriptorPath(Pad(i)))
  }

  /** The error a failed first probe surfaces. */
  function FirstProbeError(outcome: FetchOutcome): string {
    if outcome.Failed? then outcome.message else MissingMessage
  }

  /** Slide number `n` (counting from 1) was built from the items of probe `n`
      under the id `pad(n)`, for every slide of `slides`. */
  predicate LeadingRun(server: map<string, FetchOutcome>, slides: seq<Slide>) {
    forall n :: 1 <= n <= |slides| ==>
      Probe(server, n).Fetched? && slides[n - 1] == BuildSlide(Probe(server, n).items, Pad(n))
  }

  /** The run ends only where discovery must stop: at 99 slides, or just
      before a probe that does not succeed. */
  predicate RunEnds(server: map<string, FetchOutcome>, slides: seq<Slide>) {
    |slides| < MaxSlides ==> !Probe(server, |slides| + 1).Fetched?
  }

  lemma LeadingRunExtend(server: map<string, FetchOutcome>, slides: seq<Slide>, items: seq<RawItem>)
    requires LeadingRun(server, slides)
    requires Probe(server, |slides| + 1) == Fetched(items)
    ensures LeadingRun(server, slides + [BuildSlide(items, Pad(|slides| + 1))])
  {
    var next := slides + [BuildSlide(items, Pad(|slides| + 1))];
    forall n | 1 <= n <= |next|
      ensures Probe(server, n).Fetched? && next[n - 1] == BuildSlide(Probe(server, n).items, Pad(n))
    {
      if n <= |slides| {
        assert next[n - 1] == slides[n - 1];
      } else {
        assert n == |slides| + 1;
      }
    }
  }

  /** The discovery loop. It fails iff the first probe fails, with that probe's
      error; otherwise it returns one slide per leading successful probe, the
      j-th built from probe j's items under the id `pad(j)`, stopping at the
      first unsuccessful probe or after 99 slides. */
  method DiscoverSlides(server: map<string, FetchOutcome>) returns (r: Result<seq<Slide>>)
    ensures r.Failure? <==> !Probe(server, 1).Fetched?
    ensures r.Failure? ==> r.error == FirstProbeError(Probe(server, 1))
    ensures r.Success? ==> 1 <= |r.value| <= MaxSlides
    ensures r.Success? ==> LeadingRun(server, r.value)
    ensures r.Success? ==> RunEnds(server, r.value)
  {
    var discovered: seq<Slide> := [];
    var i := 1;
    while i <= MaxSlides
      invariant 1 <= i <= MaxSlides + 1
      invariant |discovered| == i - 1
      invariant i > 1 ==> Probe(server, 1).Fetched?
      invariant LeadingRun(server, discovered)
    {
      var id := Pad(i);
      var response := Fetch(server, DescriptorPath(id));
      if response.NotOk? {
        // The error thrown here is caught below and, with nothing discovered, rethrown.
        if i == 1 && |discovered| == 0 {
          return Failure(MissingMessage);
        }
        break;
      } else if response.Failed? {
        if |discovered| == 0 {
          return Failure(response.message);
        }
        break;
      }
      LeadingRunExtend(server, discovered, response.items);
      discovered := discovered + [BuildSlide(response.items, id)];
      i := i + 1;
    }
    assert |discovered| >= 1;
    return Success(discovered);
  }

  /** Identifiers of discovered slides are the two-digit, zero-padded sequence
      numbers `01`, `02`, …, so no two slides share one. */
  lemma DiscoveredIds(server: map<string, FetchOutcome>, slides: seq<Slide>, j: nat)
    requires 1 <= |slides| <= MaxSlides && j < |slides|
    requires LeadingRun(server, slides)
    ensures |slides[j].id| == 2 && AllDigits(slides[j].id) && DigitsValue(slides[j].id) == j + 1
    ensures forall i :: 0 <= i < |slides| && i != j ==> slides[i].id != slides[j].id
  {
    forall i | 0 <= i < |slides| ensures slides[i].id == Pad(i + 1) {
      assert Probe(server, i + 1).Fetched?;
    }
  }

  /** A deck of exactly one descriptor, holding only a `bg` item with bbox
      `[0, 0, 1000, 500]`, is discovered as one 1000 by 500 slide with id `01`. */
  method SingleDescriptorScenario(bitmap: string) returns (r: Result<seq<Slide>>)
    requires bitmap != ""
    ensures r.Success? && |r.value| == 1
    ensures r.value[0].id == "01" && r.value[0].baseWidth == 1000 && r.value[0].baseHeight == 500
  {
    var bg := RawItem("bg", Some(bitmap), Some([0, 0, 1000, 500]), Absent, "");
    assert Pad(1) == "01";
    assert Pad(2) == "02";
    var server := map[DescriptorPath("01") := Fetched([bg])];
    assert DescriptorPath("02") != DescriptorPath("01") by {
      assert DescriptorPath("02")[21] != DescriptorPath("01")[21];
    }
    SingleBackgroundScenario(bitmap, Absent);
    assert Probe(server, 1) == Fetched([bg]);
    assert !Probe(server, 2).Fetched?;
    r := DiscoverSlides(server);
  }
}
