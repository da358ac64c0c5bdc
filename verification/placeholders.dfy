/**
 * Which placeholders are left in the rendered text. Every substitution
 * removes every occurrence of its placeholder from the template; one is
 * left afterwards only when a value brought it in.
 */
module PlaceholderProperties {
  import opened Wrappers
  import opened Strings
  import opened StringReplace
  import opened Templates
  import opened FlavorOfTheDay
  import opened RenderProperties

  // ---------------------------------------------------------------------
  // One substitution at a time
  // ---------------------------------------------------------------------

  /** After `{{Name}}` is filled, no `{{Name}}` is left exactly when the flavor holds none. */
  lemma NameTokenGone(f: string)
    ensures Count(Replace(ItemTemplate, NameToken, f), NameToken) == 0 <==> !Contains(f, NameToken)
  {
    ItemNameCount(f);
    ContainsIffCount(f, NameToken);
  }

  /** After `{{StoreName}}` is filled, no `{{StoreName}}` is left exactly when the name holds none. */
  lemma StoreNameTokenGone(n: string)
    ensures Count(Replace(StoreTemplate, StoreNameToken, n), StoreNameToken) == 0 <==> !Contains(n, StoreNameToken)
  {
    StoreNameCount(n);
    ContainsIffCount(n, StoreNameToken);
  }

  /** After `{{Title}}` is filled, the page holds exactly as many `{{Title}}` as the zip. */
  lemma TitleTokenCount(zip: string)
    ensures Count(Replace(HtmlTemplate, TitleToken, TitlePrefix + zip), TitleToken) == Count(zip, TitleToken)
  {
    TitlePrefixText();
    PageTitleCount(TitlePrefix, zip);
  }

  /**
   * The `{{ImageUrl}}` tokens of the item: those the image URL brings in,
   * and those left in the twice-inserted flavor after its own substitution.
   */
  lemma ImageUrlTokenCount(flavor: Option<string>, imageUrl: Option<string>)
    ensures var u := imageUrl.GetOr("");
            var f := Replace(flavor.GetOr(""), ImageUrlToken, u);
            Count(RenderItem(flavor, imageUrl), ImageUrlToken) == 2 * Count(f, ImageUrlToken) + Count(u, ImageUrlToken)
  {
    var u := imageUrl.GetOr("");
    var f := Replace(flavor.GetOr(""), ImageUrlToken, u);
    RenderItemShape(flavor, imageUrl);
    FragmentTextFixed();
    PlaceholdersWellFormed();
    CountItemLayout(ItemDiv, NameDiv, ImgSrc, ImgAlt, ImgEnd, f, u, ImageUrlToken);
  }

  /** A flavor without the token: no `{{ImageUrl}}` is left exactly when the image URL holds none. */
  lemma ImageUrlTokenGone(flavor: Option<string>, imageUrl: Option<string>)
    requires !Contains(flavor.GetOr(""), ImageUrlToken)
    ensures Count(RenderItem(flavor, imageUrl), ImageUrlToken) == 0 <==> !Contains(imageUrl.GetOr(""), ImageUrlToken)
  {
    var f := flavor.GetOr("");
    var u := imageUrl.GetOr("");
    ImageUrlTokenCount(flavor, imageUrl);
    ReplaceAbsent(f, ImageUrlToken, u);
    ContainsIffCount(f, ImageUrlToken);
    ContainsIffCount(u, ImageUrlToken);
  }

  /** The `{{Items}}` tokens of a store fragment: those in the item and those left in the name. */
  lemma ItemsTokenCount(l: Location)
    ensures var item := RenderItem(l.flavorDay, l.flavorImageUrl);
            var n := Replace(l.name.GetOr(""), ItemsToken, item);
            Count(RenderStore(l), ItemsToken) == Count(n, ItemsToken) + Count(item, ItemsToken)
  {
    var item := RenderItem(l.flavorDay, l.flavorImageUrl);
    var n := Replace(l.name.GetOr(""), ItemsToken, item);
    RenderStoreShape(l);
    FragmentTextFixed();
    PlaceholdersWellFormed();
    CountStoreLayout(StoreDiv, TitleDiv, CloseDiv, CloseDiv, n, item, ItemsToken);
  }

  /** No proper suffix of `{{Items}}` is also a prefix of it, so its occurrences never overlap. */
  lemma ItemsTokenSelfDisjoint()
    ensures SelfDisjoint(ItemsToken)
  {
    var t := ItemsToken;
    forall k | 0 < k < |t|
      ensures t[k..] != t[..|t| - k]
    {
      if k == 1 {
        assert t[k..][1] != t[..|t| - k][1];
      } else {
        assert t[k..][0] != t[..|t| - k][0];
      }
    }
  }

  /**
   * The exact number of `{{Items}}` in a store fragment: the item is inserted
   * once for the placeholder and once for each token in the name, and each
   * copy brings its own tokens.
   */
  lemma ItemsTokenExact(l: Location)
    ensures var item := RenderItem(l.flavorDay, l.flavorImageUrl);
            Count(RenderStore(l), ItemsToken) == (Count(l.name.GetOr(""), ItemsToken) + 1) * Count(item, ItemsToken)
  {
    ItemsTokenCount(l);
    FencedItemsCount(l.name.GetOr(""), RenderItem(l.flavorDay, l.flavorImageUrl));
  }

  /** The name's tokens are each replaced by a fenced item, which brings its own tokens and no new ones. */
  lemma FencedItemsCount(n: string, item: string)
    requires 0 < |item| && item[0] == '<' && item[|item| - 1] == '>'
    ensures Count(Replace(n, ItemsToken, item), ItemsToken) + Count(item, ItemsToken)
         == (Count(n, ItemsToken) + 1) * Count(item, ItemsToken)
  {
    ItemsTokenSelfDisjoint();
    PlaceholdersWellFormed();
    assert Fenced(item, ItemsToken);
    FencedReplaceCount(n, ItemsToken, item);
    OneMore(Count(n, ItemsToken), Count(item, ItemsToken));
  }

  /** No `{{Items}}` is left in a store fragment exactly when the item holds none, whatever the name. */
  lemma ItemsTokenGone(l: Location)
    ensures Count(RenderStore(l), ItemsToken) == 0 <==> !Contains(RenderItem(l.flavorDay, l.flavorImageUrl), ItemsToken)
  {
    var item := RenderItem(l.flavorDay, l.flavorImageUrl);
    ItemsTokenExact(l);
    ContainsIffCount(item, ItemsToken);
    ZeroProduct(Count(l.name.GetOr(""), ItemsToken) + 1, Count(item, ItemsToken));
  }

  lemma ZeroProduct(a: nat, c: nat)
    requires 0 < a
    ensures a * c == 0 <==> c == 0
  {
  }

  /**
   * The `{{Stores}}` tokens of the page: those left in the zip once the store
   * region is substituted into it, and those of the store region itself.
   */
  lemma StoresTokenCount(zip: string, stores: string)
    ensures Count(RenderPage(zip, stores), StoresToken)
         == Count(Replace(zip, StoresToken, stores), StoresToken) + Count(stores, StoresToken)
  {
    FilledLayoutStoresCount(zip, stores);
    RenderPageIsLayout(zip, stores);
  }

  /** The same count over the page template written out as its five pieces. */
  lemma FilledLayoutStoresCount(zip: string, stores: string)
    ensures Count(Replace(Replace(Concat([HtmlHead, TitleToken, HtmlStyle, StoresToken, HtmlTail]), TitleToken, TitlePrefix + zip), StoresToken, stores), StoresToken)
         == Count(Replace(zip, StoresToken, stores), StoresToken) + Count(stores, StoresToken)
  {
    TitlePrefixText();
    PageTextFixed();
    PlaceholdersWellFormed();
    SecondPlaceholdersSurvive();
    PageStoresLayoutCount(HtmlHead, HtmlStyle, HtmlTail, TitleToken, StoresToken, TitlePrefix, zip, stores);
  }

  /** The page is that filled layout. */
  lemma RenderPageIsLayout(zip: string, stores: string)
    ensures RenderPage(zip, stores) == Replace(Replace(Concat([HtmlHead, TitleToken, HtmlStyle, StoresToken, HtmlTail]), TitleToken, TitlePrefix + zip), StoresToken, stores)
  {
  }

  /** A zip without the token: the page holds exactly as many `{{Stores}}` as the store region. */
  lemma StoresTokenGone(zip: string, stores: string)
    requires !Contains(zip, StoresToken)
    ensures Count(RenderPage(zip, stores), StoresToken) == Count(stores, StoresToken)
  {
    TitlePrefixText();
    PageStoresGone(TitlePrefix, zip, stores);
  }

  // ---------------------------------------------------------------------
  // Values without braces
  // ---------------------------------------------------------------------

  lemma ItemBraceless(flavor: Option<string>, imageUrl: Option<string>)
    requires '{' !in flavor.GetOr("") && '{' !in imageUrl.GetOr("")
    ensures ChunkOk(RenderItem(flavor, imageUrl), '{', '{')
  {
    var f := flavor.GetOr("");
    var u := imageUrl.GetOr("");
    RenderItemShape(flavor, imageUrl);
    PlaceholdersWellFormed();
    BracelessUntouched(f, ImageUrlToken, u);
    FragmentTextFixed();
    WithoutChunkOk(f, '{', '{');
    WithoutChunkOk(u, '{', '{');
    ChunkOkJoinEight(ItemDiv, NameDiv, f, ImgSrc, u, ImgAlt, f, ImgEnd, '{', '{');
  }

  lemma StoreBraceless(l: Location)
    requires BracelessLocation(l)
    ensures ChunkOk(RenderStore(l), '{', '{')
  {
    var n := l.name.GetOr("");
    var item := RenderItem(l.flavorDay, l.flavorImageUrl);
    RenderStoreShape(l);
    ItemBraceless(l.flavorDay, l.flavorImageUrl);
    PlaceholdersWellFormed();
    BracelessUntouched(n, ItemsToken, item);
    FragmentTextFixed();
    WithoutChunkOk(n, '{', '{');
    ChunkOkJoinSix(StoreDiv, TitleDiv, n, CloseDiv, item, CloseDiv, '{', '{');
  }

  lemma {:induction false} StoresBraceless(locs: seq<Location>)
    requires forall k | 0 <= k < |locs| :: BracelessLocation(locs[k])
    ensures ChunkOk(RenderStores(locs), '{', '{')
    decreases |locs|
  {
    if |locs| > 0 {
      StoreBraceless(locs[0]);
      StoresBraceless(locs[1..]);
      ChunkOkAppend(RenderStore(locs[0]), RenderStores(locs[1..]), '{', '{');
    }
  }

  /** The page layout with text without `{{` in every piece. */
  lemma PageLayoutBraceless(p0: string, p2: string, p4: string, prefix: string, v: string, stores: string)
    requires Fixed(p0) && Fixed(p2) && Fixed(p4)
    requires ChunkOk(prefix, '{', '{') && ChunkOk(v, '{', '{') && ChunkOk(stores, '{', '{')
    ensures ChunkOk(p0 + prefix + v + p2 + stores + p4, '{', '{')
  {
    ChunkOkJoinSix(p0, prefix, v, p2, stores, p4, '{', '{');
  }

  lemma PageBraceless(zip: string, stores: string)
    requires '{' !in zip && ChunkOk(stores, '{', '{')
    ensures ChunkOk(RenderPage(zip, stores), '{', '{')
  {
    RenderPageShape(zip, stores);
    PlaceholdersWellFormed();
    BracelessUntouched(zip, StoresToken, stores);
    PageTextFixed();
    TitlePrefixText();
    WithoutChunkOk(zip, '{', '{');
    PageLayoutBraceless(HtmlHead, HtmlStyle, HtmlTail, TitlePrefix, zip, stores);
  }

  /** The page of a braceless zip and braceless locations holds no `{{`. */
  lemma PageOfBraceless(zip: string, locs: seq<Location>)
    requires '{' !in zip
    requires forall k | 0 <= k < |locs| :: BracelessLocation(locs[k])
    ensures NoPair(RenderPage(zip, RenderStores(locs)), '{', '{')
  {
    StoresBraceless(locs);
    PageBraceless(zip, RenderStores(locs));
  }

  /** When neither the zip nor any field of any location holds a brace, the body holds no `{{`. */
  lemma NoBracePairLeft(zip: string, root: Option<StoresRoot>)
    requires '{' !in zip
    requires forall l | l in LocationsOf(root) :: BracelessLocation(l)
    ensures NoPair(Answer(zip, root).body, '{', '{')
  {
    var locs := LocationsOf(root);
    assert forall k | 0 <= k < |locs| :: locs[k] in locs;
    PageOfBraceless(zip, locs);
  }

  /** ... and so no placeholder of any kind is left in it. */
  lemma NoPlaceholderLeft(zip: string, root: Option<StoresRoot>)
    requires '{' !in zip
    requires forall l | l in LocationsOf(root) :: BracelessLocation(l)
    ensures forall t | Placeholder(t) :: Count(Answer(zip, root).body, t) == 0
  {
    NoBracePairLeft(zip, root);
    NoPlaceholderIn(Answer(zip, root).body);
  }
}
