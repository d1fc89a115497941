/**
 The record parsing and pagination of src/fetchers/nsoh.py. The feature
 server is a sequence of page responses: entry k answers the request at
 offset k * ARCGIS_PAGE_SIZE, and a request past the end gets an empty page.
 */
module NsohFetcher {
  import opened Wrappers
  import opened Models
  import Config

  /** A feature's "attributes"; each field is `None` when the key is absent (timestamps also when null). */
  datatype NsohAttributes = NsohAttributes(
    id: Option<string>,
    status: Option<int>,
    statusStart: Option<int>,
    latestEventStart: Option<int>,
    latestEventEnd: Option<int>,
    lastUpdated: Option<int>)

  /** One ArcGIS feature; `attributes` is `None` when the key is absent. */
  datatype NsohFeature = NsohFeature(attributes: Option<NsohAttributes>)

  /** The answer to one page request: its "features" (`None` when the key is absent), or a failure after retries. */
  datatype PageResponse = Page(features: Option<seq<NsohFeature>>) | PageFailed

  /** `feature.get("attributes", {})` on a feature without attributes. */
  const NO_ATTRIBUTES: NsohAttributes := NsohAttributes(None, None, None, None, None, None)

  /** `parse_feature`: no record without a non-empty id; otherwise the attributes verbatim, status defaulting to -1. */
  function ParseFeature(feature: NsohFeature): (r: Option<OverflowRecord>)
    ensures r.None? <==>
      feature.attributes.None? || feature.attributes.value.id.None? || feature.attributes.value.id == Some("")
    ensures r.Some? ==>
      var attrs := feature.attributes.value;
      && r.value.locationId == attrs.id.value
      && r.value.status == attrs.status.GetOr(-1)
      && r.value.statusStart == attrs.statusStart
      && r.value.latestEventStart == attrs.latestEventStart
      && r.value.latestEventEnd == attrs.latestEventEnd
      && r.value.lastUpdated == attrs.lastUpdated
      && r.value.source == "nsoh"
  {
    var attrs := feature.attributes.GetOr(NO_ATTRIBUTES);
    match attrs.id
    case None => None
    case Some(locationId) =>
      if locationId == "" then None
      else
        Some(OverflowRecord(
          locationId, attrs.status.GetOr(-1), attrs.statusStart,
          attrs.latestEventStart, attrs.latestEventEnd, attrs.lastUpdated, "nsoh"))
  }

  /** The feature the server would send for a record: its fields as attributes. */
  function FeatureOf(r: OverflowRecord): NsohFeature {
    NsohFeature(Some(NsohAttributes(
      Some(r.locationId), Some(r.status), r.statusStart, r.latestEventStart, r.latestEventEnd, r.lastUpdated)))
  }

  /** Parsing inverts `FeatureOf` on every record the parser can produce. */
  lemma ParseFeatureOf(r: OverflowRecord)
    requires r.source == "nsoh" && r.locationId != ""
    ensures ParseFeature(FeatureOf(r)) == Some(r)
  {
  }

  /** The records of the inner loop over one page: the successful parses, in feature order. */
  function ParseFeatures(features: seq<NsohFeature>): seq<OverflowRecord> {
    if features == [] then []
    else
      var last := features[|features| - 1];
      ParseFeatures(features[..|features| - 1]) + (match ParseFeature(last) case Some(r) => [r] case None => [])
  }

  /** Parsing a concatenation parses the parts in order. */
  lemma {:induction false} ParseFeaturesAppend(a: seq<NsohFeature>, b: seq<NsohFeature>)
    ensures ParseFeatures(a + b) == ParseFeatures(a) + ParseFeatures(b)
    decreases |b|
  {
    if b == [] {
      assert a + b == a;
    } else {
      var init := b[..|b| - 1];
      assert (a + b)[..|a + b| - 1] == a + init;
      assert (a + b)[|a + b| - 1] == b[|b| - 1];
      ParseFeaturesAppend(a, init);
    }
  }

  /** Every parsed record comes from a feature of the page, and every feature that parses contributes it. */
  lemma {:induction false} ParseFeaturesMembers(features: seq<NsohFeature>, r: OverflowRecord)
    ensures r in ParseFeatures(features) <==> exists i :: 0 <= i < |features| && ParseFeature(features[i]) == Some(r)
  {
    if features != [] {
      var n := |features| - 1;
      ParseFeaturesMembers(features[..n], r);
      forall i | 0 <= i < n
        ensures features[i] == features[..n][i]
      {
      }
    }
  }

  /** The response to the page request number `k`. */
  function PageAt(pages: seq<PageResponse>, k: nat): PageResponse {
    if k < |pages| then pages[k] else Page(Some([]))
  }

  /** The features of page `k`, or none when it failed. */
  function FeaturesAt(pages: seq<PageResponse>, k: nat): seq<NsohFeature> {
    match PageAt(pages, k)
    case Page(fs) => fs.GetOr([])
    case PageFailed => []
  }

  /** Whether the loop stops after page `k`: it failed, or it is shorter than a full page. */
  predicate LastPage(pages: seq<PageResponse>, k: nat) {
    PageAt(pages, k).PageFailed? || |FeaturesAt(pages, k)| < Config.ARCGIS_PAGE_SIZE
  }

  /** How many page requests the loop makes from page `k` on. */
  function PagesRequested(pages: seq<PageResponse>, k: nat): (n: nat)
    ensures n >= 1
    decreases |pages| - k
  {
    if LastPage(pages, k) || k >= |pages| then 1 else 1 + PagesRequested(pages, k + 1)
  }

  /** The records the loop accumulates from page `k` on, or `None` if a request fails. */
  function PagedRecords(pages: seq<PageResponse>, k: nat): Option<seq<OverflowRecord>>
    decreases |pages| - k
  {
    if PageAt(pages, k).PageFailed? then None
    else
      var here := ParseFeatures(FeaturesAt(pages, k));
      if LastPage(pages, k) || k >= |pages| then Some(here)
      else
        match PagedRecords(pages, k + 1)
        case Some(rest) => Some(here + rest)
        case None => None
  }

  /** All features of the pages `k .. k + n - 1`, page after page. */
  function FeaturesFrom(pages: seq<PageResponse>, k: nat, n: nat): seq<NsohFeature>
    decreases n
  {
    if n == 0 then [] else FeaturesAt(pages, k) + FeaturesFrom(pages, k + 1, n - 1)
  }

  /**
   The loop stops at the first short (or empty) page: every page requested
   before the last one was full.
   */
  lemma {:induction false} StopsAtFirstShortPage(pages: seq<PageResponse>, k: nat)
    ensures LastPage(pages, k + PagesRequested(pages, k) - 1)
    ensures forall j :: k <= j < k + PagesRequested(pages, k) - 1 ==>
      j < |pages| && pages[j].Page? && |FeaturesAt(pages, j)| >= Config.ARCGIS_PAGE_SIZE
    decreases |pages| - k
  {
    if !(LastPage(pages, k) || k >= |pages|) {
      StopsAtFirstShortPage(pages, k + 1);
    }
  }

  /**
   When no request fails, the records are the successful parses of all
   features of the requested pages, in page-then-feature order.
   */
  lemma {:induction false} PagedRecordsFlat(pages: seq<PageResponse>, k: nat)
    requires PagedRecords(pages, k).Some?
    ensures PagedRecords(pages, k).value == ParseFeatures(FeaturesFrom(pages, k, PagesRequested(pages, k)))
    decreases |pages| - k
  {
    var here := FeaturesAt(pages, k);
    if LastPage(pages, k) || k >= |pages| {
      assert FeaturesFrom(pages, k, 1) == here + [] == here;
    } else {
      var n := PagesRequested(pages, k + 1);
      PagedRecordsFlat(pages, k + 1);
      assert FeaturesFrom(pages, k, 1 + n) == here + FeaturesFrom(pages, k + 1, n);
      ParseFeaturesAppend(here, FeaturesFrom(pages, k + 1, n));
    }
  }

  /** The inner loop of `fetch_nsoh_data` over the features of one page. */
  method ParsePage(features: seq<NsohFeature>) returns (pageRecords: seq<OverflowRecord>)
    ensures pageRecords == ParseFeatures(features)
    ensures forall r | r in pageRecords :: r.source == "nsoh" && r.locationId != ""
  {
    pageRecords := [];
    for j := 0 to |features|
      invariant pageRecords == ParseFeatures(features[..j])
    {
      assert features[..j + 1][..j] == features[..j];
      var record := ParseFeature(features[j]);
      if record.Some? {
        pageRecords := pageRecords + [record.value];
      }
    }
    assert features[..|features|] == features;
    forall r | r in pageRecords
      ensures r.source == "nsoh" && r.locationId != ""
    {
      ParseFeaturesMembers(features, r);
    }
  }

  /**
   `fetch_nsoh_data`. Besides the fetch result it returns the offsets it
   requested, in request order. `timestamp` is the capture time.
   */
  method FetchNsohData(pages: seq<PageResponse>, timestamp: string) returns (result: Fetch, requested: seq<int>)
    ensures |requested| == PagesRequested(pages, 0)
    ensures forall i :: 0 <= i < |requested| ==> requested[i] == i * Config.ARCGIS_PAGE_SIZE
    ensures result.FetchFailed? <==> PagedRecords(pages, 0).None?
    ensures result.Fetched? ==>
      && result.snapshot.timestamp == timestamp
      && result.snapshot.source == "nsoh"
      && Some(result.snapshot.records) == PagedRecords(pages, 0)
      && forall r | r in result.snapshot.records :: r.source == "nsoh" && r.locationId != ""
  {
    var records: seq<OverflowRecord> := [];
    var offset := 0;
    ghost var k: nat := 0;
    requested := [];
    assert PagedRecords(pages, 0).Some? ==> records + PagedRecords(pages, 0).value == PagedRecords(pages, 0).value;
    while true
      invariant k <= |pages| && offset == k * Config.ARCGIS_PAGE_SIZE && |requested| == k
      invariant forall i :: 0 <= i < k ==> requested[i] == i * Config.ARCGIS_PAGE_SIZE
      invariant PagesRequested(pages, 0) == k + PagesRequested(pages, k)
      invariant PagedRecords(pages, k).None? ==> PagedRecords(pages, 0).None?
      invariant PagedRecords(pages, k).Some? ==> PagedRecords(pages, 0) == Some(records + PagedRecords(pages, k).value)
      invariant forall r | r in records :: r.source == "nsoh" && r.locationId != ""
      decreases |pages| - k
    {
      requested := requested + [offset];
      var response := PageAt(pages, offset / Config.ARCGIS_PAGE_SIZE);
      assert offset / Config.ARCGIS_PAGE_SIZE == k;
      if response.PageFailed? {
        return FetchFailed, requested;
      }
      var features := response.features.GetOr([]);
      assert features == FeaturesAt(pages, k);
      if features == [] {
        assert PagedRecords(pages, k) == Some(ParseFeatures([])) == Some([]);
        assert records + [] == records;
        break;
      }
      var pageRecords := ParsePage(features);
      if |features| < Config.ARCGIS_PAGE_SIZE {
        assert PagedRecords(pages, k) == Some(pageRecords);
        records := records + pageRecords;
        break;
      }
      assert k < |pages| && !LastPage(pages, k);
      if PagedRecords(pages, k + 1).Some? {
        assert PagedRecords(pages, k) == Some(pageRecords + PagedRecords(pages, k + 1).value);
        assert records + (pageRecords + PagedRecords(pages, k + 1).value)
            == (records + pageRecords) + PagedRecords(pages, k + 1).value;
      }
      records := records + pageRecords;
      offset := offset + Config.ARCGIS_PAGE_SIZE;
      k := k + 1;
    }
    result := Fetched(Snapshot(timestamp, "nsoh", records));
  }
}
