/**
 * The three fixed templates of the handler and the placeholders they hold.
 * Dafny checks facts about string literals only for short ones, so each long
 * template is written as the concatenation of short pieces; joined, the
 * pieces give the source's literal character for character.
 */
module Templates {
  import opened Strings
  import opened StringReplace

  const TitleToken := "{{Title}}"
  const StoresToken := "{{Stores}}"
  const StoreNameToken := "{{StoreName}}"
  const ItemsToken := "{{Items}}"
  const NameToken := "{{Name}}"
  const ImageUrlToken := "{{ImageUrl}}"

  /** Everything of the page before `{{Title}}`. */
  const HeadParts: seq<string> := [
      "<html><head><meta charset='utf-8'>",
      "<meta name='viewport'",
      "content='width=device-width,",
      "initial-scale=1'>",
      "<link rel='icon'type='image/png'",
      "sizes='32x32'",
      "href='https://www.g3software.net",
      "/images/favicon-32x32.png",
      "?v=PYelMGByaz'>",
      "<link rel='icon'type='image/png'",
      "sizes='16x16'",
      "href='https://www.g3software.net",
      "/images/favicon-16x16.png",
      "?v=PYelMGByaz'>",
      "<title>"
    ]
  const HtmlHead := Concat(HeadParts)

  /** Everything of the page between `{{Title}}` and `{{Stores}}`. */
  const StyleParts: seq<string> := [
      "</title><style>",
      "*{padding:0;",
      "margin:0}",
      "body{background-",
      "color:",
      "rgb(0,69,120);",
      "padding:20px}",
      ".store{width:",
      "300px;",
      "margin:0 auto 20px;",
      "text-align:center;",
      "background-color:",
      "#fff !important;",
      "border-radius:5px;",
      "filter:",
      "drop-shadow(",
      "2px 4px 6px black)}",
      "</style></head><body>"
    ]
  const HtmlStyle := Concat(StyleParts)

  const HtmlTail := "</body></html>"

  /** The outer page. */
  const HtmlTemplate := Concat([HtmlHead, TitleToken, HtmlStyle, StoresToken, HtmlTail])

  const StoreDiv := "<div class='store'>"
  const TitleDiv := "<div class='title'>"
  const CloseDiv := "</div>"

  /** One store; `{{Items}}` receives the rendered item. */
  const StoreParts: seq<string> := [StoreDiv, TitleDiv, StoreNameToken, CloseDiv, ItemsToken, CloseDiv]
  const StoreTemplate := Concat(StoreParts)

  const ItemDiv := "<div class='item'>"
  const NameDiv := "<div class='name'>"
  const ImgSrc := "</div><img src='"
  const ImgAlt := "'alt='"
  const ImgEnd := "'class='icon'/></div>"

  /** The flavor of one store; `{{Name}}` appears twice. */
  const ItemParts: seq<string> := [ItemDiv, NameDiv, NameToken, ImgSrc, ImageUrlToken, ImgAlt, NameToken, ImgEnd]
  const ItemTemplate := Concat(ItemParts)

  /** A `{{...}}` placeholder: it starts with two braces and holds no markup delimiters. */
  predicate Placeholder(t: string)
  {
    3 <= |t| && t[0] == '{' && t[1] == '{' && '<' !in t && '>' !in t && '\'' !in t
  }

  /** Template text around the placeholders: it holds no `{{`, and starts with `<` or a quote. */
  predicate Fixed(p: string)
  {
    0 < |p| && ChunkOk(p, '{', '{') && (p[0] == '<' || p[0] == '\'')
  }

  /** Fixed text survives every placeholder substitution and bounds it on both sides. */
  lemma FixedUntouched(p: string, t: string, b: string)
    requires Fixed(p) && Placeholder(t)
    ensures Replace(p, t, b) == p && Count(p, t) == 0
    ensures EndSafe(p, t) && StartSafe(p, t)
  {
    NoPairNoCount(p, t);
    ReplaceAbsent(p, t, b);
    assert p[0] !in t;
    assert forall c | c in t[1..] :: c in t;
  }

  /** Two different placeholders: neither occurs inside the other. */
  lemma PlaceholderNotInOther(s: string, t: string)
    requires Placeholder(s) && Placeholder(t)
    requires NoPair(s[1..], '{', '{') && s[2] != t[2]
    ensures !Contains(s, t)
  {
    forall i: nat | i <= |s|
      ensures !OccursAt(s, t, i)
    {
      if i + |t| <= |s| {
        var w := s[i..i + |t|];
        if 0 < i {
          assert w[0] == s[1..][i - 1] && w[1] == s[1..][i];
        } else {
          assert w[2] == s[2];
        }
      }
    }
  }

  lemma PlaceholdersWellFormed()
    ensures Placeholder(TitleToken) && Placeholder(StoresToken)
    ensures Placeholder(StoreNameToken) && Placeholder(ItemsToken)
    ensures Placeholder(NameToken) && Placeholder(ImageUrlToken)
  {
  }

  /** The placeholder each substitution introduces second is not hit by the first. */
  lemma SecondPlaceholdersSurvive()
    ensures !Contains(StoresToken, TitleToken)
    ensures !Contains(ItemsToken, StoreNameToken)
    ensures !Contains(ImageUrlToken, NameToken)
  {
    PlaceholderNotInOther(StoresToken, TitleToken);
    PlaceholderNotInOther(ItemsToken, StoreNameToken);
    PlaceholderNotInOther(ImageUrlToken, NameToken);
  }

  /** Nor does the placeholder filled first occur inside the second. */
  lemma FirstPlaceholdersDistinct()
    ensures !Contains(TitleToken, StoresToken)
    ensures !Contains(StoreNameToken, ItemsToken)
    ensures !Contains(NameToken, ImageUrlToken)
  {
    PlaceholderNotInOther(TitleToken, StoresToken);
    PlaceholderNotInOther(StoreNameToken, ItemsToken);
    PlaceholderNotInOther(NameToken, ImageUrlToken);
  }

  // The head and style literals are long; each piece is checked by a lemma of
  // its own so that every proof stays small enough for the solver.

  lemma HeadPiece0()
    ensures '{' !in HeadParts[0] && ChunkOk(HeadParts[0], '<', 'd')
  {
  }

  lemma HeadPiece1()
    ensures '{' !in HeadParts[1] && ChunkOk(HeadParts[1], '<', 'd')
  {
  }

  lemma HeadPiece2()
    ensures '{' !in HeadParts[2] && ChunkOk(HeadParts[2], '<', 'd')
  {
  }

  lemma HeadPiece3()
    ensures '{' !in HeadParts[3] && ChunkOk(HeadParts[3], '<', 'd')
  {
  }

  lemma HeadPiece4()
    ensures '{' !in HeadParts[4] && ChunkOk(HeadParts[4], '<', 'd')
  {
  }

  lemma HeadPiece5()
    ensures '{' !in HeadParts[5] && ChunkOk(HeadParts[5], '<', 'd')
  {
  }

  lemma HeadPiece6()
    ensures '{' !in HeadParts[6] && ChunkOk(HeadParts[6], '<', 'd')
  {
  }

  lemma HeadPiece7()
    ensures '{' !in HeadParts[7] && ChunkOk(HeadParts[7], '<', 'd')
  {
  }

  lemma HeadPiece8()
    ensures '{' !in HeadParts[8] && ChunkOk(HeadParts[8], '<', 'd')
  {
  }

  lemma HeadPiece9()
    ensures '{' !in HeadParts[9] && ChunkOk(HeadParts[9], '<', 'd')
  {
  }

  lemma HeadPiece10()
    ensures '{' !in HeadParts[10] && ChunkOk(HeadParts[10], '<', 'd')
  {
  }

  lemma HeadPiece11()
    ensures '{' !in HeadParts[11] && ChunkOk(HeadParts[11], '<', 'd')
  {
  }

  lemma HeadPiece12()
    ensures '{' !in HeadParts[12] && ChunkOk(HeadParts[12], '<', 'd')
  {
  }

  lemma HeadPiece13()
    ensures '{' !in HeadParts[13] && ChunkOk(HeadParts[13], '<', 'd')
  {
  }

  lemma HeadPiece14()
    ensures '{' !in HeadParts[14] && ChunkOk(HeadParts[14], '<', 'd')
  {
  }

  lemma StylePiece0()
    ensures ChunkOk(StyleParts[0], '{', '{') && ChunkOk(StyleParts[0], '<', 'd')
  {
  }

  lemma StylePiece1()
    ensures ChunkOk(StyleParts[1], '{', '{') && ChunkOk(StyleParts[1], '<', 'd')
  {
  }

  lemma StylePiece2()
    ensures ChunkOk(StyleParts[2], '{', '{') && ChunkOk(StyleParts[2], '<', 'd')
  {
  }

  lemma StylePiece3()
    ensures ChunkOk(StyleParts[3], '{', '{') && ChunkOk(StyleParts[3], '<', 'd')
  {
  }

  lemma StylePiece4()
    ensures ChunkOk(StyleParts[4], '{', '{') && ChunkOk(StyleParts[4], '<', 'd')
  {
  }

  lemma StylePiece5()
    ensures ChunkOk(StyleParts[5], '{', '{') && ChunkOk(StyleParts[5], '<', 'd')
  {
  }

  lemma StylePiece6()
    ensures ChunkOk(StyleParts[6], '{', '{') && ChunkOk(StyleParts[6], '<', 'd')
  {
  }

  lemma StylePiece7()
    ensures ChunkOk(StyleParts[7], '{', '{') && ChunkOk(StyleParts[7], '<', 'd')
  {
  }

  lemma StylePiece8()
    ensures ChunkOk(StyleParts[8], '{', '{') && ChunkOk(StyleParts[8], '<', 'd')
  {
  }

  lemma StylePiece9()
    ensures ChunkOk(StyleParts[9], '{', '{') && ChunkOk(StyleParts[9], '<', 'd')
  {
  }

  lemma StylePiece10()
    ensures ChunkOk(StyleParts[10], '{', '{') && ChunkOk(StyleParts[10], '<', 'd')
  {
  }

  lemma StylePiece11()
    ensures ChunkOk(StyleParts[11], '{', '{') && ChunkOk(StyleParts[11], '<', 'd')
  {
  }

  lemma StylePiece12()
    ensures ChunkOk(StyleParts[12], '{', '{') && ChunkOk(StyleParts[12], '<', 'd')
  {
  }

  lemma StylePiece13()
    ensures ChunkOk(StyleParts[13], '{', '{') && ChunkOk(StyleParts[13], '<', 'd')
  {
  }

  lemma StylePiece14()
    ensures ChunkOk(StyleParts[14], '{', '{') && ChunkOk(StyleParts[14], '<', 'd')
  {
  }

  lemma StylePiece15()
    ensures ChunkOk(StyleParts[15], '{', '{') && ChunkOk(StyleParts[15], '<', 'd')
  {
  }

  lemma StylePiece16()
    ensures ChunkOk(StyleParts[16], '{', '{') && ChunkOk(StyleParts[16], '<', 'd')
  {
  }

  lemma StylePiece17()
    ensures ChunkOk(StyleParts[17], '{', '{') && ChunkOk(StyleParts[17], '<', 'd')
  {
  }

  lemma HeadNoBraces()
    ensures ChunkOk(HtmlHead, '{', '{')
  {
    forall k | 0 <= k < |HeadParts|
      ensures ChunkOk(HeadParts[k], '{', '{')
    {
      if k == 0 { HeadPiece0(); }
      else if k == 1 { HeadPiece1(); }
      else if k == 2 { HeadPiece2(); }
      else if k == 3 { HeadPiece3(); }
      else if k == 4 { HeadPiece4(); }
      else if k == 5 { HeadPiece5(); }
      else if k == 6 { HeadPiece6(); }
      else if k == 7 { HeadPiece7(); }
      else if k == 8 { HeadPiece8(); }
      else if k == 9 { HeadPiece9(); }
      else if k == 10 { HeadPiece10(); }
      else if k == 11 { HeadPiece11(); }
      else if k == 12 { HeadPiece12(); }
      else if k == 13 { HeadPiece13(); }
      else if k == 14 { HeadPiece14(); }
    }
    ChunkOkConcat(HeadParts, '{', '{');
  }

  lemma HeadNoDivs()
    ensures ChunkOk(HtmlHead, '<', 'd')
  {
    forall k | 0 <= k < |HeadParts|
      ensures ChunkOk(HeadParts[k], '<', 'd')
    {
      if k == 0 { HeadPiece0(); }
      else if k == 1 { HeadPiece1(); }
      else if k == 2 { HeadPiece2(); }
      else if k == 3 { HeadPiece3(); }
      else if k == 4 { HeadPiece4(); }
      else if k == 5 { HeadPiece5(); }
      else if k == 6 { HeadPiece6(); }
      else if k == 7 { HeadPiece7(); }
      else if k == 8 { HeadPiece8(); }
      else if k == 9 { HeadPiece9(); }
      else if k == 10 { HeadPiece10(); }
      else if k == 11 { HeadPiece11(); }
      else if k == 12 { HeadPiece12(); }
      else if k == 13 { HeadPiece13(); }
      else if k == 14 { HeadPiece14(); }
    }
    ChunkOkConcat(HeadParts, '<', 'd');
  }

  lemma StyleNoBraces()
    ensures ChunkOk(HtmlStyle, '{', '{')
  {
    forall k | 0 <= k < |StyleParts|
      ensures ChunkOk(StyleParts[k], '{', '{')
    {
      if k == 0 { StylePiece0(); }
      else if k == 1 { StylePiece1(); }
      else if k == 2 { StylePiece2(); }
      else if k == 3 { StylePiece3(); }
      else if k == 4 { StylePiece4(); }
      else if k == 5 { StylePiece5(); }
      else if k == 6 { StylePiece6(); }
      else if k == 7 { StylePiece7(); }
      else if k == 8 { StylePiece8(); }
      else if k == 9 { StylePiece9(); }
      else if k == 10 { StylePiece10(); }
      else if k == 11 { StylePiece11(); }
      else if k == 12 { StylePiece12(); }
      else if k == 13 { StylePiece13(); }
      else if k == 14 { StylePiece14(); }
      else if k == 15 { StylePiece15(); }
      else if k == 16 { StylePiece16(); }
      else if k == 17 { StylePiece17(); }
    }
    ChunkOkConcat(StyleParts, '{', '{');
  }

  lemma StyleNoDivs()
    ensures ChunkOk(HtmlStyle, '<', 'd')
  {
    forall k | 0 <= k < |StyleParts|
      ensures ChunkOk(StyleParts[k], '<', 'd')
    {
      if k == 0 { StylePiece0(); }
      else if k == 1 { StylePiece1(); }
      else if k == 2 { StylePiece2(); }
      else if k == 3 { StylePiece3(); }
      else if k == 4 { StylePiece4(); }
      else if k == 5 { StylePiece5(); }
      else if k == 6 { StylePiece6(); }
      else if k == 7 { StylePiece7(); }
      else if k == 8 { StylePiece8(); }
      else if k == 9 { StylePiece9(); }
      else if k == 10 { StylePiece10(); }
      else if k == 11 { StylePiece11(); }
      else if k == 12 { StylePiece12(); }
      else if k == 13 { StylePiece13(); }
      else if k == 14 { StylePiece14(); }
      else if k == 15 { StylePiece15(); }
      else if k == 16 { StylePiece16(); }
      else if k == 17 { StylePiece17(); }
    }
    ChunkOkConcat(StyleParts, '<', 'd');
  }

  lemma HeadStarts()
    ensures 0 < |HtmlHead| && HtmlHead[0] == '<'
  {
    ConcatStart(HeadParts);
  }

  lemma StyleStarts()
    ensures 0 < |HtmlStyle| && HtmlStyle[0] == '<'
  {
    ConcatStart(StyleParts);
  }

  lemma HeadFixed()
    ensures Fixed(HtmlHead) && ChunkOk(HtmlHead, '<', 'd')
  {
    HeadNoBraces();
    HeadNoDivs();
    HeadStarts();
  }

  lemma StyleFixed()
    ensures Fixed(HtmlStyle) && ChunkOk(HtmlStyle, '<', 'd')
  {
    StyleNoBraces();
    StyleNoDivs();
    StyleStarts();
  }

  lemma TailFixed()
    ensures Fixed(HtmlTail) && ChunkOk(HtmlTail, '<', 'd')
  {
  }

  /** The text of the page template outside its two placeholders is fixed text. */
  lemma PageTextFixed()
    ensures Fixed(HtmlHead) && Fixed(HtmlStyle) && Fixed(HtmlTail)
    ensures ChunkOk(HtmlHead, '<', 'd') && ChunkOk(HtmlStyle, '<', 'd') && ChunkOk(HtmlTail, '<', 'd')
  {
    HeadFixed();
    StyleFixed();
    TailFixed();
  }

  /** The text of the store and item templates outside their placeholders is fixed text. */
  lemma FragmentTextFixed()
    ensures Fixed(StoreDiv) && Fixed(TitleDiv) && Fixed(CloseDiv)
    ensures Fixed(ItemDiv) && Fixed(NameDiv) && Fixed(ImgSrc) && Fixed(ImgAlt) && Fixed(ImgEnd)
  {
  }

  /** Fixed text separates any two pieces that are not fixed text. */
  predicate Alternating(parts: seq<string>)
  {
    forall k | 0 <= k < |parts| - 1 :: Fixed(parts[k]) || Fixed(parts[k + 1])
  }

  lemma AlternatingSegmented(parts: seq<string>, t: string)
    requires Alternating(parts) && Placeholder(t)
    ensures Segmented(parts, t)
  {
    forall k | 0 <= k < |parts| - 1
      ensures EndSafe(parts[k], t) || StartSafe(parts[k + 1], t)
    {
      if Fixed(parts[k]) {
        FixedUntouched(parts[k], t, "");
      } else {
        FixedUntouched(parts[k + 1], t, "");
      }
    }
  }

  /**
   * Filling a placeholder in an alternating template fills it piece by piece,
   * and the result still alternates, ready for the next placeholder.
   */
  lemma Fill(parts: seq<string>, t: string, b: string)
    requires Alternating(parts) && Placeholder(t)
    ensures Replace(Concat(parts), t, b) == Concat(ReplaceEach(parts, t, b))
    ensures Alternating(ReplaceEach(parts, t, b))
  {
    AlternatingSegmented(parts, t);
    ReplaceConcat(parts, t, b);
    var r := ReplaceEach(parts, t, b);
    forall k | 0 <= k < |r| - 1
      ensures Fixed(r[k]) || Fixed(r[k + 1])
    {
      if Fixed(parts[k]) {
        FixedUntouched(parts[k], t, b);
      } else {
        FixedUntouched(parts[k + 1], t, b);
      }
    }
  }

  /** First step on the `ItemTemplate` layout: `n` is filled at both of its places. */
  lemma FillItemName(p0: string, p1: string, p3: string, p5: string, p7: string,
                     n: string, i: string, f: string)
    requires Fixed(p0) && Fixed(p1) && Fixed(p3) && Fixed(p5) && Fixed(p7)
    requires Placeholder(n) && Placeholder(i) && !Contains(i, n)
    ensures Replace(Concat([p0, p1, n, p3, i, p5, n, p7]), n, f)
         == Concat([p0, p1, f, p3, i, p5, f, p7])
  {
    var parts := [p0, p1, n, p3, i, p5, n, p7];
    assert Alternating(parts);
    Fill(parts, n, f);
    var filled := [p0, p1, f, p3, i, p5, f, p7];
    forall k | 0 <= k < |parts|
      ensures ReplaceEach(parts, n, f)[k] == filled[k]
    {
      if k == 2 || k == 6 {
        ReplaceWhole(n, f);
      } else if k == 4 {
        ReplaceAbsent(i, n, f);
      } else {
        FixedUntouched(parts[k], n, f);
      }
    }
    SameElements(ReplaceEach(parts, n, f), filled);
  }

  /** Second step on the `ItemTemplate` layout: `i` is filled, also inside the value put at `n`. */
  lemma FillItemUrl(p0: string, p1: string, p3: string, p5: string, p7: string,
                    i: string, f: string, u: string)
    requires Fixed(p0) && Fixed(p1) && Fixed(p3) && Fixed(p5) && Fixed(p7)
    requires Placeholder(i)
    ensures Replace(Concat([p0, p1, f, p3, i, p5, f, p7]), i, u)
         == Concat([p0, p1, Replace(f, i, u), p3, u, p5, Replace(f, i, u), p7])
  {
    var parts := [p0, p1, f, p3, i, p5, f, p7];
    assert Alternating(parts);
    Fill(parts, i, u);
    var filled := [p0, p1, Replace(f, i, u), p3, u, p5, Replace(f, i, u), p7];
    forall k | 0 <= k < |parts|
      ensures ReplaceEach(parts, i, u)[k] == filled[k]
    {
      if k == 4 {
        ReplaceWhole(i, u);
      } else if k != 2 && k != 6 {
        FixedUntouched(parts[k], i, u);
      }
    }
    SameElements(ReplaceEach(parts, i, u), filled);
  }

  /** `ItemTemplate` with both placeholders filled: the flavor lands at both `{{Name}}` places. */
  lemma ItemFilled(f: string, u: string)
    ensures Replace(Replace(ItemTemplate, NameToken, f), ImageUrlToken, u)
         == Concat([ItemDiv, NameDiv, Replace(f, ImageUrlToken, u), ImgSrc, u, ImgAlt, Replace(f, ImageUrlToken, u), ImgEnd])
  {
    FragmentTextFixed();
    PlaceholdersWellFormed();
    SecondPlaceholdersSurvive();
    FillItemName(ItemDiv, NameDiv, ImgSrc, ImgAlt, ImgEnd, NameToken, ImageUrlToken, f);
    FillItemUrl(ItemDiv, NameDiv, ImgSrc, ImgAlt, ImgEnd, ImageUrlToken, f, u);
  }

  /** First step on the `StoreTemplate` layout: `s` is filled. */
  lemma FillStoreName(p0: string, p1: string, p3: string, p5: string,
                      s: string, i: string, n: string)
    requires Fixed(p0) && Fixed(p1) && Fixed(p3) && Fixed(p5)
    requires Placeholder(s) && Placeholder(i) && !Contains(i, s)
    ensures Replace(Concat([p0, p1, s, p3, i, p5]), s, n) == Concat([p0, p1, n, p3, i, p5])
  {
    var parts := [p0, p1, s, p3, i, p5];
    assert Alternating(parts);
    Fill(parts, s, n);
    var filled := [p0, p1, n, p3, i, p5];
    forall k | 0 <= k < |parts|
      ensures ReplaceEach(parts, s, n)[k] == filled[k]
    {
      if k == 2 {
        ReplaceWhole(s, n);
      } else if k == 4 {
        ReplaceAbsent(i, s, n);
      } else {
        FixedUntouched(parts[k], s, n);
      }
    }
    SameElements(ReplaceEach(parts, s, n), filled);
  }

  /** Second step on the `StoreTemplate` layout: `i` is filled, also inside the name. */
  lemma FillStoreItems(p0: string, p1: string, p3: string, p5: string,
                       i: string, n: string, item: string)
    requires Fixed(p0) && Fixed(p1) && Fixed(p3) && Fixed(p5)
    requires Placeholder(i)
    ensures Replace(Concat([p0, p1, n, p3, i, p5]), i, item)
         == Concat([p0, p1, Replace(n, i, item), p3, item, p5])
  {
    var parts := [p0, p1, n, p3, i, p5];
    assert Alternating(parts);
    Fill(parts, i, item);
    var filled := [p0, p1, Replace(n, i, item), p3, item, p5];
    forall k | 0 <= k < |parts|
      ensures ReplaceEach(parts, i, item)[k] == filled[k]
    {
      if k == 4 {
        ReplaceWhole(i, item);
      } else if k != 2 {
        FixedUntouched(parts[k], i, item);
      }
    }
    SameElements(ReplaceEach(parts, i, item), filled);
  }

  /** `StoreTemplate` with both placeholders filled. */
  lemma StoreFilled(n: string, item: string)
    ensures Replace(Replace(StoreTemplate, StoreNameToken, n), ItemsToken, item)
         == Concat([StoreDiv, TitleDiv, Replace(n, ItemsToken, item), CloseDiv, item, CloseDiv])
  {
    FragmentTextFixed();
    PlaceholdersWellFormed();
    SecondPlaceholdersSurvive();
    FillStoreName(StoreDiv, TitleDiv, CloseDiv, CloseDiv, StoreNameToken, ItemsToken, n);
    FillStoreItems(StoreDiv, TitleDiv, CloseDiv, CloseDiv, ItemsToken, n, item);
  }

  /** First step on the `HtmlTemplate` layout: `t` is filled. */
  lemma FillPageTitle(p0: string, p2: string, p4: string, t: string, s: string, title: string)
    requires Fixed(p0) && Fixed(p2) && Fixed(p4)
    requires Placeholder(t) && Placeholder(s) && !Contains(s, t)
    ensures Replace(Concat([p0, t, p2, s, p4]), t, title) == Concat([p0, title, p2, s, p4])
  {
    var parts := [p0, t, p2, s, p4];
    assert Alternating(parts);
    Fill(parts, t, title);
    var filled := [p0, title, p2, s, p4];
    forall k | 0 <= k < |parts|
      ensures ReplaceEach(parts, t, title)[k] == filled[k]
    {
      if k == 1 {
        ReplaceWhole(t, title);
      } else if k == 3 {
        ReplaceAbsent(s, t, title);
      } else {
        FixedUntouched(parts[k], t, title);
      }
    }
    SameElements(ReplaceEach(parts, t, title), filled);
  }

  /** Second step on the `HtmlTemplate` layout: `s` is filled, also inside the title. */
  lemma FillPageStores(p0: string, p2: string, p4: string, s: string, title: string, stores: string)
    requires Fixed(p0) && Fixed(p2) && Fixed(p4)
    requires Placeholder(s)
    ensures Replace(Concat([p0, title, p2, s, p4]), s, stores)
         == Concat([p0, Replace(title, s, stores), p2, stores, p4])
  {
    var parts := [p0, title, p2, s, p4];
    assert Alternating(parts);
    Fill(parts, s, stores);
    var filled := [p0, Replace(title, s, stores), p2, stores, p4];
    forall k | 0 <= k < |parts|
      ensures ReplaceEach(parts, s, stores)[k] == filled[k]
    {
      if k == 3 {
        ReplaceWhole(s, stores);
      } else if k != 1 {
        FixedUntouched(parts[k], s, stores);
      }
    }
    SameElements(ReplaceEach(parts, s, stores), filled);
  }

  /** Text without `{{` in front of a value is left alone; only the value can change. */
  lemma ReplaceAfterText(p: string, x: string, t: string, b: string)
    requires Placeholder(t) && ChunkOk(p, '{', '{')
    ensures Replace(p + x, t, b) == p + Replace(x, t, b)
  {
    SafeJunction(p, x, t);
    ReplaceAppend(p, x, t, b);
    NoPairNoCount(p, t);
    ReplaceAbsent(p, t, b);
  }

  /**
   * Both steps on the `HtmlTemplate` layout, with a title made of text
   * without `{{` followed by a value `v`.
   */
  lemma FillPageLayout(p0: string, p2: string, p4: string, t: string, s: string,
                       prefix: string, v: string, stores: string)
    requires Fixed(p0) && Fixed(p2) && Fixed(p4)
    requires Placeholder(t) && Placeholder(s) && !Contains(s, t)
    requires ChunkOk(prefix, '{', '{')
    ensures Replace(Replace(Concat([p0, t, p2, s, p4]), t, prefix + v), s, stores)
         == p0 + prefix + Replace(v, s, stores) + p2 + stores + p4
  {
    FillPageTitle(p0, p2, p4, t, s, prefix + v);
    FillPageStores(p0, p2, p4, s, prefix + v, stores);
    ReplaceAfterText(prefix, v, s, stores);
    ConcatFive(p0, prefix + Replace(v, s, stores), p2, stores, p4);
  }

  /** `HtmlTemplate` with both placeholders filled, the title starting with `prefix`. */
  lemma PageFilled(prefix: string, v: string, stores: string)
    requires ChunkOk(prefix, '{', '{')
    ensures Replace(Replace(HtmlTemplate, TitleToken, prefix + v), StoresToken, stores)
         == HtmlHead + prefix + Replace(v, StoresToken, stores) + HtmlStyle + stores + HtmlTail
  {
    PageTextFixed();
    PlaceholdersWellFormed();
    SecondPlaceholdersSurvive();
    FillPageLayout(HtmlHead, HtmlStyle, HtmlTail, TitleToken, StoresToken, prefix, v, stores);
  }

  // ---------------------------------------------------------------------
  // How many placeholders a filled template holds
  // ---------------------------------------------------------------------

  /** On the `ItemTemplate` layout only the two value places and the third place can hold `t`. */
  lemma CountItemLayout(p0: string, p1: string, p3: string, p5: string, p7: string,
                        x: string, y: string, t: string)
    requires Fixed(p0) && Fixed(p1) && Fixed(p3) && Fixed(p5) && Fixed(p7)
    requires Placeholder(t)
    ensures Count(p0 + p1 + x + p3 + y + p5 + x + p7, t) == 2 * Count(x, t) + Count(y, t)
  {
    FixedUntouched(p0, t, "");
    FixedUntouched(p1, t, "");
    FixedUntouched(p3, t, "");
    FixedUntouched(p5, t, "");
    FixedUntouched(p7, t, "");
    CountJoinEight(p0, p1, x, p3, y, p5, x, p7, t);
  }

  /** On the `StoreTemplate` layout only the two value places can hold `t`. */
  lemma CountStoreLayout(p0: string, p1: string, p3: string, p5: string, x: string, y: string, t: string)
    requires Fixed(p0) && Fixed(p1) && Fixed(p3) && Fixed(p5)
    requires Placeholder(t)
    ensures Count(p0 + p1 + x + p3 + y + p5, t) == Count(x, t) + Count(y, t)
  {
    FixedUntouched(p0, t, "");
    FixedUntouched(p1, t, "");
    FixedUntouched(p3, t, "");
    FixedUntouched(p5, t, "");
    CountJoinSix(p0, p1, x, p3, y, p5, t);
  }

  /** On the `HtmlTemplate` layout only the two value places can hold `t`. */
  lemma CountPageLayout(p0: string, p2: string, p4: string, x: string, y: string, t: string)
    requires Fixed(p0) && Fixed(p2) && Fixed(p4)
    requires Placeholder(t)
    ensures Count(p0 + x + p2 + y + p4, t) == Count(x, t) + Count(y, t)
  {
    FixedUntouched(p0, t, "");
    FixedUntouched(p2, t, "");
    FixedUntouched(p4, t, "");
    CountJoinFive(p0, x, p2, y, p4, t);
  }

  /** Text without `{{` in front of a value adds no occurrence of a placeholder. */
  lemma CountAfterText(p: string, x: string, t: string)
    requires Placeholder(t) && ChunkOk(p, '{', '{')
    ensures Count(p + x, t) == Count(x, t)
  {
    SafeJunction(p, x, t);
    CountAppend(p, x, t);
    NoPairNoCount(p, t);
  }

  /** The `ItemTemplate` layout holds `n` twice and `i` once. */
  lemma ItemLayoutCounts(p0: string, p1: string, p3: string, p5: string, p7: string, n: string, i: string)
    requires Fixed(p0) && Fixed(p1) && Fixed(p3) && Fixed(p5) && Fixed(p7)
    requires Placeholder(n) && Placeholder(i) && !Contains(i, n) && !Contains(n, i)
    ensures Count(Concat([p0, p1, n, p3, i, p5, n, p7]), n) == 2
    ensures Count(Concat([p0, p1, n, p3, i, p5, n, p7]), i) == 1
  {
    ConcatEight(p0, p1, n, p3, i, p5, n, p7);
    CountItemLayout(p0, p1, p3, p5, p7, n, i, n);
    CountItemLayout(p0, p1, p3, p5, p7, n, i, i);
    SameLengthCount(n, n);
    SameLengthCount(i, i);
    ContainsIffCount(i, n);
    ContainsIffCount(n, i);
  }

  /** The `StoreTemplate` layout holds `s` once and `i` once. */
  lemma StoreLayoutCounts(p0: string, p1: string, p3: string, p5: string, s: string, i: string)
    requires Fixed(p0) && Fixed(p1) && Fixed(p3) && Fixed(p5)
    requires Placeholder(s) && Placeholder(i) && !Contains(i, s) && !Contains(s, i)
    ensures Count(Concat([p0, p1, s, p3, i, p5]), s) == 1
    ensures Count(Concat([p0, p1, s, p3, i, p5]), i) == 1
  {
    ConcatSix(p0, p1, s, p3, i, p5);
    CountStoreLayout(p0, p1, p3, p5, s, i, s);
    CountStoreLayout(p0, p1, p3, p5, s, i, i);
    SameLengthCount(s, s);
    SameLengthCount(i, i);
    ContainsIffCount(i, s);
    ContainsIffCount(s, i);
  }

  /** The `HtmlTemplate` layout holds `t` once and `s` once. */
  lemma PageLayoutCounts(p0: string, p2: string, p4: string, t: string, s: string)
    requires Fixed(p0) && Fixed(p2) && Fixed(p4)
    requires Placeholder(t) && Placeholder(s) && !Contains(s, t) && !Contains(t, s)
    ensures Count(Concat([p0, t, p2, s, p4]), t) == 1
    ensures Count(Concat([p0, t, p2, s, p4]), s) == 1
  {
    ConcatFive(p0, t, p2, s, p4);
    CountPageLayout(p0, p2, p4, t, s, t);
    CountPageLayout(p0, p2, p4, t, s, s);
    SameLengthCount(t, t);
    SameLengthCount(s, s);
    ContainsIffCount(s, t);
    ContainsIffCount(t, s);
  }

  /** `ItemTemplate` holds `{{Name}}` twice and `{{ImageUrl}}` once. */
  lemma ItemTemplateCounts()
    ensures Count(ItemTemplate, NameToken) == 2
    ensures Count(ItemTemplate, ImageUrlToken) == 1
  {
    FragmentTextFixed();
    PlaceholdersWellFormed();
    SecondPlaceholdersSurvive();
    FirstPlaceholdersDistinct();
    ItemLayoutCounts(ItemDiv, NameDiv, ImgSrc, ImgAlt, ImgEnd, NameToken, ImageUrlToken);
  }

  /** `StoreTemplate` holds `{{StoreName}}` once and `{{Items}}` once. */
  lemma StoreTemplateCounts()
    ensures Count(StoreTemplate, StoreNameToken) == 1
    ensures Count(StoreTemplate, ItemsToken) == 1
  {
    FragmentTextFixed();
    PlaceholdersWellFormed();
    SecondPlaceholdersSurvive();
    FirstPlaceholdersDistinct();
    StoreLayoutCounts(StoreDiv, TitleDiv, CloseDiv, CloseDiv, StoreNameToken, ItemsToken);
  }

  /** `HtmlTemplate` holds `{{Title}}` once and `{{Stores}}` once. */
  lemma PageTemplateCounts()
    ensures Count(HtmlTemplate, TitleToken) == 1
    ensures Count(HtmlTemplate, StoresToken) == 1
  {
    PageTextFixed();
    PlaceholdersWellFormed();
    SecondPlaceholdersSurvive();
    FirstPlaceholdersDistinct();
    PageLayoutCounts(HtmlHead, HtmlStyle, HtmlTail, TitleToken, StoresToken);
  }

  /** After the first step on the `ItemTemplate` layout, `n` is left only inside the two values. */
  lemma ItemNameLayoutCount(p0: string, p1: string, p3: string, p5: string, p7: string,
                            n: string, i: string, f: string)
    requires Fixed(p0) && Fixed(p1) && Fixed(p3) && Fixed(p5) && Fixed(p7)
    requires Placeholder(n) && Placeholder(i) && !Contains(i, n)
    ensures Count(Replace(Concat([p0, p1, n, p3, i, p5, n, p7]), n, f), n) == 2 * Count(f, n)
  {
    FillItemName(p0, p1, p3, p5, p7, n, i, f);
    ConcatEight(p0, p1, f, p3, i, p5, f, p7);
    CountItemLayout(p0, p1, p3, p5, p7, f, i, n);
    ContainsIffCount(i, n);
  }

  /** After the first step on the `StoreTemplate` layout, `s` is left only inside the value. */
  lemma StoreNameLayoutCount(p0: string, p1: string, p3: string, p5: string,
                             s: string, i: string, n: string)
    requires Fixed(p0) && Fixed(p1) && Fixed(p3) && Fixed(p5)
    requires Placeholder(s) && Placeholder(i) && !Contains(i, s)
    ensures Count(Replace(Concat([p0, p1, s, p3, i, p5]), s, n), s) == Count(n, s)
  {
    FillStoreName(p0, p1, p3, p5, s, i, n);
    ConcatSix(p0, p1, n, p3, i, p5);
    CountStoreLayout(p0, p1, p3, p5, n, i, s);
    ContainsIffCount(i, s);
  }

  /** After the first step on the `HtmlTemplate` layout, `t` is left only inside the value. */
  lemma PageTitleLayoutCount(p0: string, p2: string, p4: string, t: string, s: string,
                             prefix: string, v: string)
    requires Fixed(p0) && Fixed(p2) && Fixed(p4)
    requires Placeholder(t) && Placeholder(s) && !Contains(s, t)
    requires ChunkOk(prefix, '{', '{')
    ensures Count(Replace(Concat([p0, t, p2, s, p4]), t, prefix + v), t) == Count(v, t)
    ensures Contains(Replace(Concat([p0, t, p2, s, p4]), t, prefix + v), t) <==> Contains(v, t)
  {
    FillPageTitle(p0, p2, p4, t, s, prefix + v);
    ConcatFive(p0, prefix + v, p2, s, p4);
    CountPageLayout(p0, p2, p4, prefix + v, s, t);
    ContainsIffCount(s, t);
    CountAfterText(prefix, v, t);
    ContainsIffCount(Replace(Concat([p0, t, p2, s, p4]), t, prefix + v), t);
    ContainsIffCount(v, t);
  }

  /** Filling `{{Name}}`: the two places hold the flavor, so its occurrences of the token count twice. */
  lemma ItemNameCount(f: string)
    ensures Count(Replace(ItemTemplate, NameToken, f), NameToken) == 2 * Count(f, NameToken)
  {
    FragmentTextFixed();
    PlaceholdersWellFormed();
    SecondPlaceholdersSurvive();
    ItemNameLayoutCount(ItemDiv, NameDiv, ImgSrc, ImgAlt, ImgEnd, NameToken, ImageUrlToken, f);
  }

  /** Filling `{{StoreName}}`: only the name can hold the token afterwards. */
  lemma StoreNameCount(n: string)
    ensures Count(Replace(StoreTemplate, StoreNameToken, n), StoreNameToken) == Count(n, StoreNameToken)
  {
    FragmentTextFixed();
    PlaceholdersWellFormed();
    SecondPlaceholdersSurvive();
    StoreNameLayoutCount(StoreDiv, TitleDiv, CloseDiv, CloseDiv, StoreNameToken, ItemsToken, n);
  }

  /** Filling `{{Title}}` with a prefix and a value: only the value can hold the token afterwards. */
  lemma PageTitleCount(prefix: string, v: string)
    requires ChunkOk(prefix, '{', '{')
    ensures Count(Replace(HtmlTemplate, TitleToken, prefix + v), TitleToken) == Count(v, TitleToken)
  {
    PageTextFixed();
    PlaceholdersWellFormed();
    SecondPlaceholdersSurvive();
    PageTitleLayoutCount(HtmlHead, HtmlStyle, HtmlTail, TitleToken, StoresToken, prefix, v);
  }

  /** After both steps on the `HtmlTemplate` layout, `s` is left only in the store region and in the value. */
  lemma PageStoresLayoutCount(p0: string, p2: string, p4: string, t: string, s: string,
                              prefix: string, v: string, stores: string)
    requires Fixed(p0) && Fixed(p2) && Fixed(p4)
    requires Placeholder(t) && Placeholder(s) && !Contains(s, t)
    requires ChunkOk(prefix, '{', '{')
    ensures Count(Replace(Replace(Concat([p0, t, p2, s, p4]), t, prefix + v), s, stores), s)
         == Count(Replace(v, s, stores), s) + Count(stores, s)
  {
    var r := Replace(v, s, stores);
    FillPageLayout(p0, p2, p4, t, s, prefix, v, stores);
    assert p0 + prefix + r + p2 + stores + p4 == p0 + (prefix + r) + p2 + stores + p4;
    CountPageLayout(p0, p2, p4, prefix + r, stores, s);
    CountAfterText(prefix, r, s);
  }

  /** With a value free of `s`, the filled layout holds `s` only inside the store region. */
  lemma PageStoresLayoutGone(p0: string, p2: string, p4: string, t: string, s: string,
                             prefix: string, v: string, stores: string)
    requires Fixed(p0) && Fixed(p2) && Fixed(p4)
    requires Placeholder(t) && Placeholder(s) && !Contains(s, t)
    requires ChunkOk(prefix, '{', '{') && !Contains(v, s)
    ensures Count(Replace(Replace(Concat([p0, t, p2, s, p4]), t, prefix + v), s, stores), s) == Count(stores, s)
  {
    PageStoresLayoutCount(p0, p2, p4, t, s, prefix, v, stores);
    ReplaceAbsent(v, s, stores);
    ContainsIffCount(v, s);
  }

  /** Filling both placeholders of `HtmlTemplate` with a value free of `{{Stores}}`. */
  lemma PageStoresGone(prefix: string, v: string, stores: string)
    requires ChunkOk(prefix, '{', '{') && !Contains(v, StoresToken)
    ensures Count(Replace(Replace(HtmlTemplate, TitleToken, prefix + v), StoresToken, stores), StoresToken)
         == Count(stores, StoresToken)
  {
    PageTextFixed();
    PlaceholdersWellFormed();
    SecondPlaceholdersSurvive();
    PageStoresLayoutGone(HtmlHead, HtmlStyle, HtmlTail, TitleToken, StoresToken, prefix, v, stores);
  }

  /** Text holding no `{{` holds no placeholder. */
  lemma NoPlaceholderIn(s: string)
    requires NoPair(s, '{', '{')
    ensures forall t | Placeholder(t) :: Count(s, t) == 0
  {
    forall t | Placeholder(t)
      ensures Count(s, t) == 0
    {
      NoPairNoCount(s, t);
    }
  }
}
