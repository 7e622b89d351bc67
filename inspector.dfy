/**
 * The stateful part of the inspector: the highlight source, the two display
 * elements, the first-hit scan of the singleclick handler
 * (script.js:118-134), highlightFeature (script.js:103-110) and the clear
 * button's handler (script.js:136-142).
 */
module Inspector {
  import opened Wrappers
  import opened Features
  import opened FeatureInfo

  /** The layer a hit is reported in; Unmanaged stands for a null layer. */
  datatype Layer = Layer1 | Layer2 | HighlightLayer | Unmanaged

  /** The layers the inspector accepts: `layer === layer1 || layer === layer2`. */
  predicate Inspectable(layer: Layer) {
    layer == Layer1 || layer == Layer2
  }

  /** The feature of the first hit in an inspectable layer. */
  function FirstHit(hits: seq<(Feature, Layer)>): Option<Feature> {
    if hits == [] then None
    else if Inspectable(hits[0].1) then Some(hits[0].0)
    else FirstHit(hits[1..])
  }

  /**
   * No inspectable hit gives None; otherwise the result is the feature of the
   * earliest inspectable hit, whatever hits in other layers came before it.
   */
  lemma {:induction false} FirstHitSpec(hits: seq<(Feature, Layer)>)
    ensures FirstHit(hits).None? <==> forall i :: 0 <= i < |hits| ==> !Inspectable(hits[i].1)
    ensures forall i ::
      (0 <= i < |hits| && Inspectable(hits[i].1) && forall j :: 0 <= j < i ==> !Inspectable(hits[j].1))
      ==> FirstHit(hits) == Some(hits[i].0)
  {
    if hits != [] && !Inspectable(hits[0].1) {
      FirstHitSpec(hits[1..]);
      assert forall i :: 0 < i < |hits| ==> hits[i] == hits[1..][i - 1];
    }
  }

  /**
   * The forEachFeatureAtPixel callback: `picked` is set at the first hit in
   * layer1 or layer2 and the scan stops there.
   */
  method Pick(hits: seq<(Feature, Layer)>) returns (picked: Option<Feature>)
    ensures picked == FirstHit(hits)
  {
    picked := None;
    var i := 0;
    while i < |hits|
      invariant 0 <= i <= |hits|
      invariant picked.None?
      invariant FirstHit(hits[i..]) == FirstHit(hits)
    {
      var (feature, layer) := hits[i];
      if Inspectable(layer) {
        picked := Some(feature);
        return;
      }
      assert hits[i..][1..] == hits[i + 1..];
      i := i + 1;
    }
  }

  /** A vector source: the features it holds, in insertion order. */
  class VectorSource {
    var features: seq<Feature>

    constructor ()
      ensures features == []
    {
      features := [];
    }

    method Clear()
      modifies this
      ensures features == []
    {
      features := [];
    }

    method AddFeature(f: Feature)
      modifies this
      ensures features == old(features) + [f]
    {
      features := features + [f];
    }
  }

  /** The text line 138 puts in the lon/lat element, as the file spells it. */
  const ClearedLonLat: string := "\U{00E2}\U{20AC}\U{201D}"

  /** The page state the inspector writes. */
  class Page {
    var lonLatText: string   // elLonLat.textContent
    var infoHtml: string     // elInfo.innerHTML
    const highlightSource: VectorSource

    /** The highlight layer holds at most one feature; every method of the page keeps it. */
    ghost predicate Valid()
      reads this, highlightSource
    {
      |highlightSource.features| <= 1
    }

    constructor (lonLat: string, info: string)
      ensures Valid() && fresh(highlightSource)
      ensures lonLatText == lonLat && infoHtml == info && highlightSource.features == []
    {
      lonLatText := lonLat;
      infoHtml := info;
      highlightSource := new VectorSource();
    }

    /** renderLonLatFromCoordinate: nothing changes without a coordinate. */
    method RenderLonLat<C>(coordinate: Option<C>, formatLonLat: C -> string)
      requires Valid()
      modifies this
      ensures Valid()
      ensures lonLatText == if coordinate.Some? then formatLonLat(coordinate.value) else old(lonLatText)
      ensures infoHtml == old(infoHtml)
    {
      if coordinate.None? {
        return;
      }
      lonLatText := formatLonLat(coordinate.value);
    }

    method RenderFeatureInfo(feature: Option<Feature>)
      requires Valid()
      modifies this
      ensures Valid()
      ensures infoHtml == FeatureInfoHtml(feature)
      ensures lonLatText == old(lonLatText)
    {
      infoHtml := FeatureInfoHtml(feature);
    }

    /** Empties the highlight layer, then adds a copy of the feature if there is one. */
    method HighlightFeature(feature: Option<Feature>)
      modifies highlightSource
      ensures Valid()
      ensures highlightSource.features == if feature.Some? then [HighlightCopy(feature.value)] else []
    {
      highlightSource.Clear();
      if feature.None? {
        return;
      }
      var clone := CloneFeature(feature.value);
      clone := SetId(clone, feature.value.id);
      highlightSource.AddFeature(clone);
    }

    /** The singleclick handler. */
    method OnSingleClick<C>(hits: seq<(Feature, Layer)>, coordinate: Option<C>, formatLonLat: C -> string)
      requires Valid()
      modifies this, highlightSource
      ensures Valid()
      ensures lonLatText == if coordinate.Some? then formatLonLat(coordinate.value) else old(lonLatText)
      ensures infoHtml == FeatureInfoHtml(FirstHit(hits))
      ensures highlightSource.features ==
        if FirstHit(hits).Some? then [HighlightCopy(FirstHit(hits).value)] else []
    {
      var picked := Pick(hits);
      RenderLonLat(coordinate, formatLonLat);
      RenderFeatureInfo(picked);
      HighlightFeature(picked);
    }

    /** The clear button's handler: the cleared state does not depend on the old one. */
    method OnClear()
      requires Valid()
      modifies this, highlightSource
      ensures Valid()
      ensures lonLatText == ClearedLonLat
      ensures infoHtml == EmptyStateHtml
      ensures highlightSource.features == []
    {
      lonLatText := ClearedLonLat;
      RenderFeatureInfo(None);
      highlightSource.Clear();
    }
  }

  /** Clearing twice leaves the page as clearing once does. */
  method ClearTwice(page: Page)
    requires page.Valid()
    modifies page, page.highlightSource
    ensures page.Valid()
    ensures page.lonLatText == ClearedLonLat && page.infoHtml == EmptyStateHtml
    ensures page.highlightSource.features == []
  {
    page.OnClear();
    var lonLat, info, shown := page.lonLatText, page.infoHtml, page.highlightSource.features;
    page.OnClear();
    assert page.lonLatText == lonLat && page.infoHtml == info && page.highlightSource.features == shown;
  }

  /** A second highlight replaces the first: one feature, the copy of the second. */
  method HighlightTwice(page: Page, f: Feature, g: Feature)
    modifies page.highlightSource
    ensures page.highlightSource.features == [g]
  {
    page.HighlightFeature(Some(f));
    page.HighlightFeature(Some(g));
    HighlightCopyPreserves(g);
  }

  /** A click on nothing inspectable shows the empty state and empties the highlight. */
  method ClickOnNothing<C>(page: Page, hits: seq<(Feature, Layer)>, coordinate: Option<C>, formatLonLat: C -> string)
    requires page.Valid()
    requires forall i :: 0 <= i < |hits| ==> !Inspectable(hits[i].1)
    modifies page, page.highlightSource
    ensures page.infoHtml == EmptyStateHtml && page.highlightSource.features == []
  {
    FirstHitSpec(hits);
    page.OnSingleClick(hits, coordinate, formatLonLat);
  }
}
