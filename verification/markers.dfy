/**
 * Counting store blocks: every store fragment opens with
 * `<div class='store'>`, and when no value brings in markup or
 * placeholders, that marker occurs in the body once per location.
 */
module StoreMarkers {
  import opened Wrappers
  import opened Strings
  import opened StringReplace
  import opened Templates
  import opened FlavorOfTheDay
  import opened RenderProperties

  lemma MarkerShape()
    ensures |StoreDiv| == 19 && StoreDiv[0] == '<' && StoreDiv[1] == 'd'
    ensures '<' !in StoreDiv[1..] && '>' !in StoreDiv[..18]
  {
    assert forall k | 1 <= k < 19 :: StoreDiv[k] != '<';
    assert forall k | 0 <= k < 18 :: StoreDiv[k] != '>';
  }

  /** A piece ending in `>` cannot hold the start of a marker that runs past it. */
  lemma TagEnd(x: string)
    requires 0 < |x| && x[|x| - 1] == '>'
    ensures EndSafe(x, StoreDiv)
  {
    MarkerShape();
  }

  /** A piece starting with `<` cannot be the middle of a marker. */
  lemma TagStart(y: string)
    requires 0 < |y| && y[0] == '<'
    ensures StartSafe(y, StoreDiv)
  {
    MarkerShape();
  }

  /** Text without `<d` holds no marker and ends where no marker can run across. */
  lemma NoDiv(x: string)
    requires ChunkOk(x, '<', 'd')
    ensures EndSafe(x, StoreDiv) && Count(x, StoreDiv) == 0
  {
    MarkerShape();
    NoPairNoCount(x, StoreDiv);
  }

  lemma PlainNoDiv(x: string)
    requires Plain(x)
    ensures EndSafe(x, StoreDiv) && Count(x, StoreDiv) == 0
  {
    WithoutChunkOk(x, '<', 'd');
    NoDiv(x);
  }

  /** The fixed text of the item template holds no marker. */
  lemma ItemDivMarkers()
    ensures Count(ItemDiv, StoreDiv) == 0 && EndSafe(ItemDiv, StoreDiv)
  {
    MarkerShape();
    CountShort(ItemDiv, StoreDiv);
    TagEnd(ItemDiv);
  }

  lemma NameDivMarkers()
    ensures Count(NameDiv, StoreDiv) == 0 && EndSafe(NameDiv, StoreDiv)
  {
    MarkerShape();
    CountShort(NameDiv, StoreDiv);
    TagEnd(NameDiv);
  }

  lemma ImgSrcMarkers()
    ensures Count(ImgSrc, StoreDiv) == 0 && EndSafe(ImgSrc, StoreDiv)
  {
    assert ChunkOk(ImgSrc, '<', 'd');
    NoDiv(ImgSrc);
  }

  lemma ImgAltMarkers()
    ensures Count(ImgAlt, StoreDiv) == 0 && EndSafe(ImgAlt, StoreDiv)
  {
    WithoutChunkOk(ImgAlt, '<', 'd');
    NoDiv(ImgAlt);
  }

  lemma ImgEndMarkers()
    ensures Count(ImgEnd, StoreDiv) == 0 && EndSafe(ImgEnd, StoreDiv)
  {
    assert ChunkOk(ImgEnd, '<', 'd');
    NoDiv(ImgEnd);
  }

  /** The fixed text of the store template: one marker, at its start. */
  lemma StoreDivMarkers()
    ensures Count(StoreDiv, StoreDiv) == 1 && EndSafe(StoreDiv, StoreDiv)
  {
    MarkerShape();
    SameLengthCount(StoreDiv, StoreDiv);
    TagEnd(StoreDiv);
  }

  lemma TitleDivMarkers()
    ensures Count(TitleDiv, StoreDiv) == 0 && EndSafe(TitleDiv, StoreDiv)
  {
    MarkerShape();
    assert TitleDiv[12] != StoreDiv[12];
    SameLengthCount(TitleDiv, StoreDiv);
    TagEnd(TitleDiv);
  }

  lemma CloseDivMarkers()
    ensures Count(CloseDiv, StoreDiv) == 0 && EndSafe(CloseDiv, StoreDiv) && StartSafe(CloseDiv, StoreDiv)
  {
    MarkerShape();
    CountShort(CloseDiv, StoreDiv);
    TagEnd(CloseDiv);
    TagStart(CloseDiv);
  }

  /** An item of plain values holds no marker. */
  lemma ItemMarkers(flavor: Option<string>, imageUrl: Option<string>)
    requires Plain(flavor.GetOr("")) && Plain(imageUrl.GetOr(""))
    ensures Count(RenderItem(flavor, imageUrl), StoreDiv) == 0
  {
    var f := flavor.GetOr("");
    var u := imageUrl.GetOr("");
    RenderItemShape(flavor, imageUrl);
    PlaceholdersWellFormed();
    BracelessUntouched(f, ImageUrlToken, u);
    ItemDivMarkers();
    NameDivMarkers();
    ImgSrcMarkers();
    ImgAltMarkers();
    ImgEndMarkers();
    PlainNoDiv(f);
    PlainNoDiv(u);
    CountJoinEight(ItemDiv, NameDiv, f, ImgSrc, u, ImgAlt, f, ImgEnd, StoreDiv);
  }

  /** A store of plain values holds exactly one marker, and no marker runs past its end. */
  lemma StoreMarkersOfOne(l: Location)
    requires PlainLocation(l)
    ensures Count(RenderStore(l), StoreDiv) == 1
    ensures EndSafe(RenderStore(l), StoreDiv)
  {
    var n := l.name.GetOr("");
    var item := RenderItem(l.flavorDay, l.flavorImageUrl);
    RenderStoreShape(l);
    PlaceholdersWellFormed();
    BracelessUntouched(n, ItemsToken, item);
    ItemMarkers(l.flavorDay, l.flavorImageUrl);
    StoreDivMarkers();
    TitleDivMarkers();
    CloseDivMarkers();
    PlainNoDiv(n);
    CountJoinSix(StoreDiv, TitleDiv, n, CloseDiv, item, CloseDiv, StoreDiv);
    var s := StoreDiv + TitleDiv + n + CloseDiv + item + CloseDiv;
    assert s[|s| - 1] == CloseDiv[5] == '>';
    TagEnd(s);
  }

  /** The store region of plain locations holds one marker per location. */
  lemma {:induction false} StoresMarkerCount(locs: seq<Location>)
    requires forall k | 0 <= k < |locs| :: PlainLocation(locs[k])
    ensures Count(RenderStores(locs), StoreDiv) == |locs|
    decreases |locs|
  {
    if |locs| != 0 {
      var head := RenderStore(locs[0]);
      var rest := RenderStores(locs[1..]);
      StoreMarkersOfOne(locs[0]);
      SafeJunction(head, rest, StoreDiv);
      CountAppend(head, rest, StoreDiv);
      StoresMarkerCount(locs[1..]);
    }
  }

  /** The page layout around the store region adds no marker. */
  lemma PageMarkerLayout(p0: string, prefix: string, z: string, p2: string, stores: string, p4: string)
    requires ChunkOk(p0, '<', 'd') && ChunkOk(prefix, '<', 'd') && ChunkOk(z, '<', 'd')
    requires ChunkOk(p2, '<', 'd') && ChunkOk(p4, '<', 'd') && 0 < |p4| && p4[0] == '<'
    ensures Count(p0 + prefix + z + p2 + stores + p4, StoreDiv) == Count(stores, StoreDiv)
  {
    NoDiv(p0);
    NoDiv(prefix);
    NoDiv(z);
    NoDiv(p2);
    NoDiv(p4);
    TagStart(p4);
    CountJoinSix(p0, prefix, z, p2, stores, p4, StoreDiv);
  }

  lemma TailStarts()
    ensures 0 < |HtmlTail| && HtmlTail[0] == '<'
  {
  }

  /** With a plain zip, every marker of the page is one of the store region. */
  lemma PageMarkers(zip: string, stores: string)
    requires Plain(zip)
    ensures Count(RenderPage(zip, stores), StoreDiv) == Count(stores, StoreDiv)
  {
    RenderPageShape(zip, stores);
    PlaceholdersWellFormed();
    BracelessUntouched(zip, StoresToken, stores);
    PageTextFixed();
    TitlePrefixText();
    TailStarts();
    WithoutChunkOk(zip, '<', 'd');
    PageMarkerLayout(HtmlHead, TitlePrefix, zip, HtmlStyle, stores, HtmlTail);
  }

  /**
   * When neither the zip nor any field of any location holds `{` or `<`,
   * the body holds `<div class='store'>` exactly once per location.
   */
  lemma MarkerCount(zip: string, root: Option<StoresRoot>)
    requires Plain(zip)
    requires forall l | l in LocationsOf(root) :: PlainLocation(l)
    ensures Count(Answer(zip, root).body, StoreDiv) == |LocationsOf(root)|
  {
    var locs := LocationsOf(root);
    assert forall k | 0 <= k < |locs| :: locs[k] in locs;
    StoresMarkerCount(locs);
    PageMarkers(zip, RenderStores(locs));
  }
}
