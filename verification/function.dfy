/**
 * The request handler of the flavor-of-the-day page: each location of the
 * upstream answer becomes a store fragment, the fragments are joined in
 * order, and the page template is filled with a title and the fragments.
 */
module FlavorOfTheDay {
  import opened Wrappers
  import opened Strings
  import opened StringReplace
  import opened Templates

  /** One upstream store record; a field absent from the payload is null. */
  datatype Location = Location(name: Option<string>, flavorDay: Option<string>, flavorImageUrl: Option<string>)

  datatype LocationCollection = LocationCollection(locations: Option<seq<Location>>)

  /** The deserialized upstream answer. */
  datatype StoresRoot = StoresRoot(collection: Option<LocationCollection>)

  /** The part of the incoming request the handler reads. */
  datatype Request = Request(queryStringParameters: Option<map<string, string>>)

  /** Why the handler ends with an exception instead of a response. */
  datatype Fault =
    | MissingQueryString      // the request carries no query-string map
    | MissingZip              // the map has no "zip" key
    | UpstreamFault(reason: string)

  datatype Response = Response(statusCode: int, headers: map<string, string>, body: string)

  const Ok := 200
  const PageHeaders: map<string, string> := map[
    "Content-Type" := "text/html",
    "Access-Control-Allow-Origin" := "*",
    "Access-Control-Allow-Credentials" := "true"
  ]

  /** The fixed response headers: exactly three, with these values. */
  lemma PageHeadersExact()
    ensures PageHeaders.Keys == {"Content-Type", "Access-Control-Allow-Origin", "Access-Control-Allow-Credentials"}
    ensures |PageHeaders| == 3
    ensures PageHeaders["Content-Type"] == "text/html"
    ensures PageHeaders["Access-Control-Allow-Origin"] == "*"
    ensures PageHeaders["Access-Control-Allow-Credentials"] == "true"
  {
    assert "Content-Type"[0] != "Access-Control-Allow-Origin"[0];
    assert "Access-Control-Allow-Origin"[21] != "Access-Control-Allow-Credentials"[21];
  }

  /** The response the handler answers with: always 200, always the same three headers. */
  function PageResponse(body: string): (resp: Response)
    ensures resp.statusCode == 200 && resp.body == body
    ensures resp.headers.Keys == {"Content-Type", "Access-Control-Allow-Origin", "Access-Control-Allow-Credentials"}
    ensures resp.headers["Content-Type"] == "text/html"
    ensures resp.headers["Access-Control-Allow-Origin"] == "*"
    ensures resp.headers["Access-Control-Allow-Credentials"] == "true"
  {
    PageHeadersExact();
    Response(Ok, PageHeaders, body)
  }

  /** The text the title placeholder receives, before the zip. */
  const TitlePrefix := "Flavors of the day for "

  /** The locations of an upstream answer; any missing level counts as none. */
  function LocationsOf(root: Option<StoresRoot>): (locs: seq<Location>)
    ensures root.Some? && root.value.collection.Some? && root.value.collection.value.locations.Some?
            ==> locs == root.value.collection.value.locations.value
    ensures root.None? || root.value.collection.None? || root.value.collection.value.locations.None?
            ==> locs == []
  {
    match root
    case None => []
    case Some(r) =>
      match r.collection
      case None => []
      case Some(c) => c.locations.GetOr([])
  }

  /**
   * The item fragment of one store; a null field puts "" in place of its
   * placeholder. Whatever the values, the fragment starts with `<` and ends
   * with `>`, so no placeholder occurrence runs into or out of it.
   */
  function RenderItem(flavor: Option<string>, imageUrl: Option<string>): (r: string)
    ensures 0 < |r| && r[0] == '<' && r[|r| - 1] == '>'
  {
    ItemFencedByTags(flavor, imageUrl);
    ReplaceNullable(ReplaceNullable(ItemTemplate, NameToken, flavor), ImageUrlToken, imageUrl)
  }

  /** The filled item starts with the item div and ends with the image's closing tags. */
  lemma ItemFencedByTags(flavor: Option<string>, imageUrl: Option<string>)
    ensures var r := ReplaceNullable(ReplaceNullable(ItemTemplate, NameToken, flavor), ImageUrlToken, imageUrl);
            0 < |r| && r[0] == '<' && r[|r| - 1] == '>'
  {
    var f := flavor.GetOr("");
    var u := imageUrl.GetOr("");
    ItemFilled(f, u);
    ConcatEight(ItemDiv, NameDiv, Replace(f, ImageUrlToken, u), ImgSrc, u, ImgAlt, Replace(f, ImageUrlToken, u), ImgEnd);
  }

  /**
   * The item fragment: the flavor at both `{{Name}}` places, then the image
   * URL, itself substituted into the flavor as well when the flavor happens
   * to contain `{{ImageUrl}}`.
   */
  lemma RenderItemShape(flavor: Option<string>, imageUrl: Option<string>)
    ensures var u := imageUrl.GetOr("");
            var f := Replace(flavor.GetOr(""), ImageUrlToken, u);
            RenderItem(flavor, imageUrl) == ItemDiv + NameDiv + f + ImgSrc + u + ImgAlt + f + ImgEnd
  {
    var f := flavor.GetOr("");
    var u := imageUrl.GetOr("");
    ItemFilled(f, u);
    ConcatEight(ItemDiv, NameDiv, Replace(f, ImageUrlToken, u), ImgSrc, u, ImgAlt, Replace(f, ImageUrlToken, u), ImgEnd);
  }

  /**
   * The fragment of one store; a null name puts "" in place of its
   * placeholder. Whatever the values, the fragment starts with `<` and ends
   * with `>`, so no placeholder occurrence runs into or out of it.
   */
  function RenderStore(l: Location): (r: string)
    ensures 0 < |r| && r[0] == '<' && r[|r| - 1] == '>'
  {
    StoreFencedByTags(l);
    Replace(ReplaceNullable(StoreTemplate, StoreNameToken, l.name), ItemsToken, RenderItem(l.flavorDay, l.flavorImageUrl))
  }

  /** The filled store starts with the store div and ends with a closing div. */
  lemma StoreFencedByTags(l: Location)
    ensures var r := Replace(ReplaceNullable(StoreTemplate, StoreNameToken, l.name), ItemsToken, RenderItem(l.flavorDay, l.flavorImageUrl));
            0 < |r| && r[0] == '<' && r[|r| - 1] == '>'
  {
    var n := l.name.GetOr("");
    var item := RenderItem(l.flavorDay, l.flavorImageUrl);
    StoreFilled(n, item);
    ConcatSix(StoreDiv, TitleDiv, Replace(n, ItemsToken, item), CloseDiv, item, CloseDiv);
  }

  /**
   * The store fragment: its name, then its item. A name containing
   * `{{Items}}` has the item substituted into it too.
   */
  lemma RenderStoreShape(l: Location)
    ensures var item := RenderItem(l.flavorDay, l.flavorImageUrl);
            RenderStore(l) == StoreDiv + TitleDiv + Replace(l.name.GetOr(""), ItemsToken, item) + CloseDiv + item + CloseDiv
  {
    var n := l.name.GetOr("");
    var item := RenderItem(l.flavorDay, l.flavorImageUrl);
    StoreFilled(n, item);
    ConcatSix(StoreDiv, TitleDiv, Replace(n, ItemsToken, item), CloseDiv, item, CloseDiv);
  }

  /** The fragments of the stores, one per location and in the same order. */
  function StoreFragments(locs: seq<Location>): (r: seq<string>)
    ensures |r| == |locs|
    ensures forall k | 0 <= k < |locs| :: r[k] == RenderStore(locs[k])
  {
    if |locs| == 0 then [] else [RenderStore(locs[0])] + StoreFragments(locs[1..])
  }

  /** The store region of the page: the fragments joined in location order. */
  function RenderStores(locs: seq<Location>): (r: string)
    ensures r == Concat(StoreFragments(locs))
  {
    if |locs| == 0 then ""
    else
      assert StoreFragments(locs)[1..] == StoreFragments(locs[1..]);
      RenderStore(locs[0]) + RenderStores(locs[1..])
  }

  /**
   * The page: `{{Title}}` is filled first, then `{{Stores}}`. Whatever the
   * zip and the store region hold, the page ends with the template's
   * closing tags.
   */
  function RenderPage(zip: string, stores: string): (r: string)
    ensures |HtmlTail| <= |r| && r[|r| - |HtmlTail|..] == HtmlTail
  {
    TitlePrefixText();
    PageFilled(TitlePrefix, zip, stores);
    Replace(Replace(HtmlTemplate, TitleToken, TitlePrefix + zip), StoresToken, stores)
  }

  /**
   * The page holds the title, then the store region. A zip containing
   * `{{Stores}}` has the store region substituted into the title too; the
   * store region itself is inserted as it is.
   */
  lemma RenderPageShape(zip: string, stores: string)
    ensures RenderPage(zip, stores)
         == HtmlHead + TitlePrefix + Replace(zip, StoresToken, stores) + HtmlStyle + stores + HtmlTail
  {
    TitlePrefixText();
    PageFilled(TitlePrefix, zip, stores);
  }

  lemma TitlePrefixText()
    ensures ChunkOk(TitlePrefix, '{', '{') && ChunkOk(TitlePrefix, '<', 'd')
  {
  }

  /** Joining the store region of two runs of locations. */
  lemma RenderStoresAppend(a: seq<Location>, b: seq<Location>)
    ensures RenderStores(a + b) == RenderStores(a) + RenderStores(b)
  {
    StoreFragmentsAppend(a, b);
    ConcatAppend(StoreFragments(a), StoreFragments(b));
  }

  /** The fragments of two runs of locations are those of the first followed by those of the second. */
  lemma StoreFragmentsAppend(a: seq<Location>, b: seq<Location>)
    ensures StoreFragments(a + b) == StoreFragments(a) + StoreFragments(b)
  {
    var x := StoreFragments(a + b);
    var y := StoreFragments(a) + StoreFragments(b);
    forall k | 0 <= k < |x|
      ensures x[k] == y[k]
    {
      if k < |a| {
        assert (a + b)[k] == a[k];
      } else {
        assert (a + b)[k] == b[k - |a|];
      }
    }
  }


  /** One more location adds its fragment at the end of the store region. */
  lemma RenderStoresSnoc(locs: seq<Location>, i: nat)
    requires i < |locs|
    ensures RenderStores(locs[..i + 1]) == RenderStores(locs[..i]) + RenderStore(locs[i])
  {
    RenderStoresAppend(locs[..i], [locs[i]]);
    assert locs[..i + 1] == locs[..i] + [locs[i]];
    RenderStoresOne(locs[i]);
  }

  lemma RenderStoresOne(l: Location)
    ensures RenderStores([l]) == RenderStore(l)
  {
    assert [l][1..] == [];
  }

  /** `input.QueryStringParameters["zip"]`: fails when the map or the key is missing. */
  function ZipOf(input: Request): (r: Result<string, Fault>)
    ensures r.Success? <==> input.queryStringParameters.Some? && "zip" in input.queryStringParameters.value
    ensures r.Success? ==> r.value == input.queryStringParameters.value["zip"]
    ensures input.queryStringParameters.None? ==> r == Failure(MissingQueryString)
    ensures input.queryStringParameters.Some? && "zip" !in input.queryStringParameters.value
            ==> r == Failure(MissingZip)
  {
    match input.queryStringParameters
    case None => Failure(MissingQueryString)
    case Some(query) => if "zip" in query then Success(query["zip"]) else Failure(MissingZip)
  }

  /**
   * The handler: read the zip, take the upstream answer for it, render one
   * fragment per location into a buffer, and answer with the page.
   * `upstream` is the deserialized answer of the store locator for the zip,
   * or the reason the call failed.
   */
  method FunctionHandler(input: Request, upstream: Result<Option<StoresRoot>, string>)
    returns (r: Result<Response, Fault>)
    ensures r.Failure? <==> ZipOf(input).Failure? || upstream.Failure?
    ensures ZipOf(input).Failure? ==> r == Failure(ZipOf(input).error)
    ensures ZipOf(input).Success? && upstream.Failure? ==> r == Failure(UpstreamFault(upstream.error))
    ensures r.Success? ==> r.value == Answer(ZipOf(input).value, upstream.value)
  {
    var zip := ZipOf(input);
    if zip.Failure? {
      return Failure(zip.error);
    }
    if upstream.Failure? {
      return Failure(UpstreamFault(upstream.error));
    }
    var response := Respond(zip.value, upstream.value);
    return Success(response);
  }

  /**
   * The response for a zip and the upstream answer about it: status 200,
   * the three fixed headers, and the page whose store region is the
   * locations' fragments joined in order (none when any level is missing).
   */
  function Answer(zip: string, root: Option<StoresRoot>): (r: Response)
    ensures r.statusCode == 200
    ensures r.headers == PageHeaders
    ensures r.body == RenderPage(zip, Concat(StoreFragments(LocationsOf(root))))
  {
    PageResponse(RenderPage(zip, RenderStores(LocationsOf(root))))
  }

  /** The successful end of the handler: the store loop, then the page. */
  method Respond(zip: string, root: Option<StoresRoot>) returns (response: Response)
    ensures response == Answer(zip, root)
  {
    var storeText := BuildStoreText(LocationsOf(root));
    response := PageResponse(RenderPage(zip, storeText));
  }

  /** The loop of the handler: append each store's fragment to a buffer, in order. */
  method BuildStoreText(locs: seq<Location>) returns (storeText: string)
    ensures storeText == RenderStores(locs)
  {
    storeText := "";
    var i := 0;
    while i < |locs|
      invariant 0 <= i <= |locs|
      invariant storeText == RenderStores(locs[..i])
    {
      RenderStoresSnoc(locs, i);
      storeText := storeText + RenderStore(locs[i]);
      i := i + 1;
    }
    assert locs[..i] == locs;
  }
}
