/**
 * What the rendered page promises: where each value lands, what a missing
 * field becomes, why the order of the substitutions matters, and how many
 * store blocks the page holds.
 */
module RenderProperties {
  import opened Wrappers
  import opened Strings
  import opened StringReplace
  import opened Templates
  import opened FlavorOfTheDay

  /** Text with no brace and no tag opener: nothing in it reads as a placeholder or as markup. */
  predicate Plain(s: string)
  {
    '{' !in s && '<' !in s
  }

  predicate PlainLocation(l: Location)
  {
    Plain(l.name.GetOr("")) && Plain(l.flavorDay.GetOr("")) && Plain(l.flavorImageUrl.GetOr(""))
  }

  /** None of the fields of the location holds a brace. */
  predicate BracelessLocation(l: Location)
  {
    '{' !in l.name.GetOr("") && '{' !in l.flavorDay.GetOr("") && '{' !in l.flavorImageUrl.GetOr("")
  }

  /** A placeholder substitution leaves text without braces alone. */
  lemma BracelessUntouched(s: string, t: string, b: string)
    requires '{' !in s && Placeholder(t)
    ensures Replace(s, t, b) == s
  {
    NoPairNoCount(s, t);
    ReplaceAbsent(s, t, b);
  }

  // ---------------------------------------------------------------------
  // Where the values land
  // ---------------------------------------------------------------------

  lemma PlacesOfEight(a: string, b: string, c: string, d: string, e: string, f: string, g: string, h: string)
    ensures var s := a + b + c + d + e + f + g + h;
            && OccursAt(s, c, |a| + |b|)
            && OccursAt(s, e, |a| + |b| + |c| + |d|)
            && OccursAt(s, g, |a| + |b| + |c| + |d| + |e| + |f|)
  {
    var s := a + b + c + d + e + f + g + h;
    var i := |a| + |b|;
    assert s[i..i + |c|] == c;
    i := i + |c| + |d|;
    assert s[i..i + |e|] == e;
    i := i + |e| + |f|;
    assert s[i..i + |g|] == g;
  }

  /**
   * For a flavor without `{{ImageUrl}}`, both `{{Name}}` places of the item
   * hold the flavor unchanged, and the image URL sits between them.
   */
  lemma FlavorAtBothPlaces(flavor: Option<string>, imageUrl: Option<string>)
    requires !Contains(flavor.GetOr(""), ImageUrlToken)
    ensures var f := flavor.GetOr("");
            var u := imageUrl.GetOr("");
            var r := RenderItem(flavor, imageUrl);
            && OccursAt(r, f, |ItemDiv| + |NameDiv|)
            && OccursAt(r, u, |ItemDiv| + |NameDiv| + |f| + |ImgSrc|)
            && OccursAt(r, f, |ItemDiv| + |NameDiv| + |f| + |ImgSrc| + |u| + |ImgAlt|)
  {
    var f := flavor.GetOr("");
    var u := imageUrl.GetOr("");
    RenderItemShape(flavor, imageUrl);
    ReplaceAbsent(f, ImageUrlToken, u);
    PlacesOfEight(ItemDiv, NameDiv, f, ImgSrc, u, ImgAlt, f, ImgEnd);
  }

  /** Markup in a name is inserted as it is: nothing is escaped. */
  lemma NameVerbatim(l: Location)
    requires !Contains(l.name.GetOr(""), ItemsToken)
    ensures OccursAt(RenderStore(l), l.name.GetOr(""), |StoreDiv| + |TitleDiv|)
  {
    var n := l.name.GetOr("");
    var item := RenderItem(l.flavorDay, l.flavorImageUrl);
    RenderStoreShape(l);
    ReplaceAbsent(n, ItemsToken, item);
    var s := StoreDiv + TitleDiv + n + CloseDiv + item + CloseDiv;
    assert s[|StoreDiv| + |TitleDiv|..|StoreDiv| + |TitleDiv| + |n|] == n;
  }

  // ---------------------------------------------------------------------
  // Missing fields
  // ---------------------------------------------------------------------

  /** A null flavor and image URL leave nothing at their places. */
  lemma NullItem()
    ensures RenderItem(None, None) == ItemDiv + NameDiv + ImgSrc + ImgAlt + ImgEnd
  {
    RenderItemShape(None, None);
    assert Replace("", ImageUrlToken, "") == "";
  }

  /** A null name leaves nothing between the title tags. */
  lemma NullName(flavor: Option<string>, imageUrl: Option<string>)
    ensures var item := RenderItem(flavor, imageUrl);
            RenderStore(Location(None, flavor, imageUrl)) == StoreDiv + TitleDiv + CloseDiv + item + CloseDiv
  {
    var item := RenderItem(flavor, imageUrl);
    RenderStoreShape(Location(None, flavor, imageUrl));
    assert Replace("", ItemsToken, item) == "";
    DropEmpty(StoreDiv + TitleDiv, CloseDiv + item + CloseDiv);
  }

  // ---------------------------------------------------------------------
  // Order of the substitutions
  // ---------------------------------------------------------------------

  /** A store named `{{Items}}` gets its item in place of its name too: the name is filled first. */
  lemma NameHoldingItemsToken(flavor: Option<string>, imageUrl: Option<string>)
    ensures var item := RenderItem(flavor, imageUrl);
            RenderStore(Location(Some(ItemsToken), flavor, imageUrl))
            == StoreDiv + TitleDiv + item + CloseDiv + item + CloseDiv
  {
    RenderStoreShape(Location(Some(ItemsToken), flavor, imageUrl));
    ReplaceWhole(ItemsToken, RenderItem(flavor, imageUrl));
  }

  /** A flavor `{{ImageUrl}}` turns into the image URL at both of its places. */
  lemma FlavorHoldingImageUrlToken(imageUrl: Option<string>)
    ensures var u := imageUrl.GetOr("");
            RenderItem(Some(ImageUrlToken), imageUrl) == ItemDiv + NameDiv + u + ImgSrc + u + ImgAlt + u + ImgEnd
  {
    RenderItemShape(Some(ImageUrlToken), imageUrl);
    ReplaceWhole(ImageUrlToken, imageUrl.GetOr(""));
  }

  /** A zip `{{Stores}}` puts the whole store region into the title as well. */
  lemma ZipHoldingStoresToken(stores: string)
    ensures RenderPage(StoresToken, stores) == HtmlHead + TitlePrefix + stores + HtmlStyle + stores + HtmlTail
  {
    RenderPageShape(StoresToken, stores);
    ReplaceWhole(StoresToken, stores);
  }

  /** The store region is inserted as it is, whatever placeholders it holds: it is not scanned again. */
  lemma StoresVerbatim(zip: string, stores: string)
    ensures var before := HtmlHead + TitlePrefix + Replace(zip, StoresToken, stores) + HtmlStyle;
            OccursAt(RenderPage(zip, stores), stores, |before|)
  {
    RenderPageShape(zip, stores);
    OccursBetween(HtmlHead + TitlePrefix + Replace(zip, StoresToken, stores) + HtmlStyle, stores, HtmlTail);
  }

  // ---------------------------------------------------------------------
  // No stores
  // ---------------------------------------------------------------------

  /** There are no locations exactly when some level of the answer is missing or the list is empty. */
  lemma NoLocationsIff(root: Option<StoresRoot>)
    ensures LocationsOf(root) == [] <==>
            || root.None?
            || root.value.collection.None?
            || root.value.collection.value.locations.None?
            || root.value.collection.value.locations.value == []
  {
  }

  /** Without locations the page holds the title and an empty store region. */
  lemma EmptyStoresPage(zip: string, root: Option<StoresRoot>)
    requires LocationsOf(root) == []
    ensures Answer(zip, root).body == HtmlHead + TitlePrefix + Replace(zip, StoresToken, "") + HtmlStyle + HtmlTail
  {
    RenderPageShape(zip, "");
    DropEmpty(HtmlHead + TitlePrefix + Replace(zip, StoresToken, "") + HtmlStyle, HtmlTail);
  }

  /** Stated over plain variables: proved inline, over the page's literals, it costs the solver far more. */
  lemma DropEmpty(x: string, y: string)
    ensures x + "" + y == x + y
  {
    assert x + "" == x;
  }
}
