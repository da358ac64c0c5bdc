# Flavor of the day page, modelled in Dafny

`G3.Culvers.FlavorOfTheDay` is an AWS Lambda function that answers an HTTP
request carrying a `zip` query parameter. It asks the Culver's store locator
for the restaurants near that zip. It then renders an HTML page with one store
block per restaurant, showing the store's name and its flavor of the day with
its image.

The page is built by plain text substitution into three constant templates:

- `ItemTemplate` receives the flavor (`{{Name}}`, twice) and the image URL
  (`{{ImageUrl}}`);
- `StoreTemplate` receives the store name (`{{StoreName}}`) and the item
  (`{{Items}}`);
- the store fragments are appended to a buffer in location order;
- `HtmlTemplate` receives the title `"Flavors of the day for " + zip`
  (`{{Title}}`) and the buffer (`{{Stores}}`).

The response always has status 200 and the same three headers.

The model consists of these modules:

- `Wrappers` (`wrappers.dfy`): `Option` and `Result`.
- `Strings` (`strings.dfy`): occurrences, `Count`, `Concat` and the lemmas
  that count occurrences of a pattern across a concatenation whose junctions
  no occurrence can straddle.
- `StringReplace` (`replace.dfy`): the .NET `string.Replace(string, string)`
  the handler calls. It uses ordinal comparison, replaces every
  non-overlapping occurrence from left to right, and never scans inserted
  text again. A null new value acts as `""`. Its reference definition is
  `Join(Split(s, t), b)` over the leftmost decomposition of `s`.
- `Templates` (`templates.dfy`): the three templates, character for character.
  Each is written as a concatenation of short pieces. The module also proves
  how each substitution fills each template and how many placeholders it
  leaves.
- `FlavorOfTheDay` (`function.dfy`): the records of the upstream answer, the
  request, the response, and the render functions. It also holds the handler
  (`FunctionHandler`) with the upstream call as a parameter, and the loop that
  fills the store buffer.
- `RenderProperties` (`properties.dfy`): where each value lands, null fields,
  and why the order of the substitutions matters.
- `PlaceholderProperties` (`placeholders.dfy`): which placeholders can be
  left in the output, and when none is.
- `StoreMarkers` (`markers.dfy`): when no value holds `{` or `<`, the page
  holds exactly one `<div class='store'>` per location.

## Model

| member | source | states |
|---|---|---|
| `StringReplace.Replace` | G3.Culvers.FlavorOfTheDay/Function.cs:74-77 | replacing a pattern by text of the same length keeps the length of the string |
| `StringReplace.ReplaceNullable` | G3.Culvers.FlavorOfTheDay/Function.cs:74-77 | a null new value acts as `""`: the result is the leftmost non-overlapping decomposition (`Split`) joined with `""`, so the text never grows; a non-null value gives the decomposition joined with that value; a value equal to the pattern leaves the text unchanged |
| `StringReplace.ReplaceAbsent` | G3.Culvers.FlavorOfTheDay/Function.cs:74-77 | a string without an occurrence of the pattern comes back unchanged |
| `StringReplace.SplitIsLeftmost` | G3.Culvers.FlavorOfTheDay/Function.cs:74-77 | every string decomposes as pieces joined by the pattern, each separator being the first occurrence after the previous one and the last piece holding none |
| `StringReplace.ReplaceIsJoinOfSplit` | G3.Culvers.FlavorOfTheDay/Function.cs:74-77 | Replace equals the reference definition: the leftmost decomposition joined with the new value, so every non-overlapping occurrence is replaced and nothing inserted is rescanned |
| `StringReplace.ReplaceSelf` | G3.Culvers.FlavorOfTheDay/Function.cs:74-77 | replacing a pattern by itself changes nothing |
| `StringReplace.ReplaceWhole` | G3.Culvers.FlavorOfTheDay/Function.cs:74-77 | a string that is exactly the pattern becomes exactly the new value |
| `StringReplace.ReplaceCanCreateToken` | G3.Culvers.FlavorOfTheDay/Function.cs:74-77 | removing the one `{{Name}}` of `{{Na{{Name}}me}}` yields `{{Name}}`: the text around a removed occurrence can close up into a new one, so a new value free of the pattern does not alone make the result free of it |
| `StringReplace.ReplaceAppend` | G3.Culvers.FlavorOfTheDay/Function.cs:74-77 | over a junction no occurrence straddles, replacement acts on each side separately |
| `StringReplace.ReplaceConcat` | G3.Culvers.FlavorOfTheDay/Function.cs:74-77 | over pieces whose junctions no occurrence straddles, replacement is piece by piece |
| `StringReplace.FencedReplaceCount` | G3.Culvers.FlavorOfTheDay/Function.cs:74-75 | when the pattern cannot overlap itself and the new value starts and ends with characters outside the pattern, the result holds the pattern (occurrences in the text) times (occurrences in the value) times |
| `Templates.SecondPlaceholdersSurvive` | G3.Culvers.FlavorOfTheDay/Function.cs:23-27 | the placeholder filled second in each template does not hold the one filled first, so the first substitution leaves it intact |
| `Templates.ItemTemplateCounts` | G3.Culvers.FlavorOfTheDay/Function.cs:27 | the item template holds `{{Name}}` exactly twice and `{{ImageUrl}}` exactly once |
| `Templates.StoreTemplateCounts` | G3.Culvers.FlavorOfTheDay/Function.cs:25 | the store template holds `{{StoreName}}` and `{{Items}}` once each |
| `Templates.PageTemplateCounts` | G3.Culvers.FlavorOfTheDay/Function.cs:23 | the page template holds `{{Title}}` and `{{Stores}}` once each |
| `Templates.ItemFilled` | G3.Culvers.FlavorOfTheDay/Function.cs:75-77 | after both substitutions the item is its fixed markup with the flavor at both name places and the image URL at the source place, and the URL is also substituted inside the flavor |
| `Templates.StoreFilled` | G3.Culvers.FlavorOfTheDay/Function.cs:73-77 | after both substitutions the store is its fixed markup with the name (item substituted into it) in the title and the item after it |
| `Templates.PageFilled` | G3.Culvers.FlavorOfTheDay/Function.cs:82-88 | after both substitutions the page is head, title text (store region substituted into it), style, store region and tail |
| `Templates.ItemNameCount` | G3.Culvers.FlavorOfTheDay/Function.cs:76 | after `{{Name}}` is filled, the item holds twice as many `{{Name}}` as the flavor, so none when the flavor holds none |
| `Templates.StoreNameCount` | G3.Culvers.FlavorOfTheDay/Function.cs:74 | after `{{StoreName}}` is filled, the store holds as many `{{StoreName}}` as the name |
| `Templates.PageTitleCount` | G3.Culvers.FlavorOfTheDay/Function.cs:82-85 | after `{{Title}}` is filled with a brace-free prefix and a value, the page holds as many `{{Title}}` as the value |
| `Templates.PageStoresLayoutCount` | G3.Culvers.FlavorOfTheDay/Function.cs:82-88 | for any page layout of that form, the `{{Stores}}` left after both substitutions are those left in the title value plus those in the store region |
| `Templates.PageStoresGone` | G3.Culvers.FlavorOfTheDay/Function.cs:86-88 | for a title value without `{{Stores}}`, the page holds exactly as many `{{Stores}}` as the store region |
| `FlavorOfTheDay.PageHeadersExact` | G3.Culvers.FlavorOfTheDay/Function.cs:90-95 | the header map has exactly the three keys with the values `text/html`, `*` and `true` |
| `FlavorOfTheDay.PageResponse` | G3.Culvers.FlavorOfTheDay/Function.cs:80-96 | the response carries the body, status 200 and exactly the three fixed headers |
| `FlavorOfTheDay.LocationsOf` | G3.Culvers.FlavorOfTheDay/Function.cs:70 | the locations are the list when root, collection and list are all present, and empty when any level is missing |
| `FlavorOfTheDay.RenderItem` | G3.Culvers.FlavorOfTheDay/Function.cs:75-77 | whatever the flavor and image URL, null or not, the item fragment starts with `<` and ends with `>`, so no placeholder occurrence runs into or out of it; its full layout is `RenderItemShape` |
| `FlavorOfTheDay.RenderItemShape` | G3.Culvers.FlavorOfTheDay/Function.cs:75-77 | the item is ItemDiv, NameDiv, flavor, ImgSrc, image URL, ImgAlt, flavor, ImgEnd, with a null field giving `""` and the URL substituted into the flavor |
| `FlavorOfTheDay.RenderStore` | G3.Culvers.FlavorOfTheDay/Function.cs:73-77 | whatever the location's fields, the store fragment starts with `<` and ends with `>`, so no placeholder occurrence runs into or out of it; its full layout is `RenderStoreShape` |
| `FlavorOfTheDay.RenderStoreShape` | G3.Culvers.FlavorOfTheDay/Function.cs:73-77 | the store is StoreDiv, TitleDiv, name (item substituted into it), CloseDiv, item, CloseDiv, with a null name giving `""` |
| `FlavorOfTheDay.StoreFragments` | G3.Culvers.FlavorOfTheDay/Function.cs:70-77 | one fragment per location, the k-th being the rendering of the k-th location |
| `FlavorOfTheDay.RenderStores` | G3.Culvers.FlavorOfTheDay/Function.cs:69-78 | the store region is the concatenation of the fragments in location order |
| `FlavorOfTheDay.RenderStoresAppend` | G3.Culvers.FlavorOfTheDay/Function.cs:69-78 | the store region of two runs of locations is the region of the first followed by that of the second |
| `FlavorOfTheDay.RenderPage` | G3.Culvers.FlavorOfTheDay/Function.cs:82-88 | whatever the zip and the store region hold, the page ends with the template's closing `</body></html>`; its full layout is `RenderPageShape` |
| `FlavorOfTheDay.RenderPageShape` | G3.Culvers.FlavorOfTheDay/Function.cs:82-88 | the body is head, "Flavors of the day for " and the zip (store region substituted into it), style, the store region and the tail |
| `FlavorOfTheDay.ZipOf` | G3.Culvers.FlavorOfTheDay/Function.cs:66 | the zip lookup succeeds exactly when the query map exists and has key `zip`, and returns its value; otherwise it fails naming the missing level |
| `FlavorOfTheDay.FunctionHandler` | G3.Culvers.FlavorOfTheDay/Function.cs:59-96 | the handler fails exactly when the zip lookup or the upstream call fails, with that reason, and otherwise answers with the page for the zip and the upstream locations |
| `FlavorOfTheDay.Answer` | G3.Culvers.FlavorOfTheDay/Function.cs:80-96 | the response has status 200, exactly the three fixed headers, and as body the page for the zip whose store region is the locations' fragments joined in order |
| `FlavorOfTheDay.Respond` | G3.Culvers.FlavorOfTheDay/Function.cs:69-96 | the store loop followed by the page gives the answer for the zip and the upstream answer |
| `FlavorOfTheDay.BuildStoreText` | G3.Culvers.FlavorOfTheDay/Function.cs:69-78 | appending each location's fragment to an empty buffer in order yields the store region |
| `RenderProperties.BracelessUntouched` | G3.Culvers.FlavorOfTheDay/Function.cs:74-77 | a placeholder substitution leaves text without braces unchanged |
| `RenderProperties.FlavorAtBothPlaces` | G3.Culvers.FlavorOfTheDay/Function.cs:76-77 | for a flavor without `{{ImageUrl}}`, both `{{Name}}` places of the item hold the flavor, and the image URL sits between them |
| `RenderProperties.NameVerbatim` | G3.Culvers.FlavorOfTheDay/Function.cs:74 | a name without `{{Items}}` appears unescaped right after the title tag |
| `RenderProperties.NullItem` | G3.Culvers.FlavorOfTheDay/Function.cs:76-77 | a null flavor and a null image URL remove their placeholders and leave only the fixed markup |
| `RenderProperties.NullName` | G3.Culvers.FlavorOfTheDay/Function.cs:74 | a null name removes `{{StoreName}}` and leaves nothing between the title tags |
| `RenderProperties.NameHoldingItemsToken` | G3.Culvers.FlavorOfTheDay/Function.cs:74-75 | a store named `{{Items}}` shows its item in the title too, because the name is filled before the item |
| `RenderProperties.FlavorHoldingImageUrlToken` | G3.Culvers.FlavorOfTheDay/Function.cs:76-77 | a flavor `{{ImageUrl}}` shows the image URL at all three places, because the flavor is filled before the URL |
| `RenderProperties.ZipHoldingStoresToken` | G3.Culvers.FlavorOfTheDay/Function.cs:82-88 | a zip `{{Stores}}` puts the whole store region into the title as well |
| `RenderProperties.StoresVerbatim` | G3.Culvers.FlavorOfTheDay/Function.cs:86-88 | the store region appears in the body as it is, whatever placeholders it holds |
| `RenderProperties.NoLocationsIff` | G3.Culvers.FlavorOfTheDay/Function.cs:70 | there are no locations exactly when the root, the collection or the list is missing, or the list is empty |
| `RenderProperties.EmptyStoresPage` | G3.Culvers.FlavorOfTheDay/Function.cs:70-88 | without locations the body is the page with the title filled and an empty store region |
| `PlaceholderProperties.NameTokenGone` | G3.Culvers.FlavorOfTheDay/Function.cs:76 | after `{{Name}}` is filled, none is left exactly when the flavor holds none |
| `PlaceholderProperties.StoreNameTokenGone` | G3.Culvers.FlavorOfTheDay/Function.cs:74 | after `{{StoreName}}` is filled, none is left exactly when the name holds none |
| `PlaceholderProperties.TitleTokenCount` | G3.Culvers.FlavorOfTheDay/Function.cs:83-85 | after `{{Title}}` is filled, the page holds as many `{{Title}}` as the zip |
| `PlaceholderProperties.ImageUrlTokenCount` | G3.Culvers.FlavorOfTheDay/Function.cs:75-77 | the `{{ImageUrl}}` left in the item are those in the image URL plus twice those left in the flavor |
| `PlaceholderProperties.ImageUrlTokenGone` | G3.Culvers.FlavorOfTheDay/Function.cs:75-77 | for a flavor without `{{ImageUrl}}`, none is left in the item exactly when the image URL holds none |
| `PlaceholderProperties.ItemsTokenCount` | G3.Culvers.FlavorOfTheDay/Function.cs:73-77 | the `{{Items}}` left in a store are those in the item plus those left in the name |
| `PlaceholderProperties.ItemsTokenExact` | G3.Culvers.FlavorOfTheDay/Function.cs:73-77 | a store holds exactly (`{{Items}}` in the name + 1) times (`{{Items}}` in the item): the item is inserted once per token of the name and once for the template's own, and its fenced ends create no new token |
| `PlaceholderProperties.ItemsTokenGone` | G3.Culvers.FlavorOfTheDay/Function.cs:73-77 | whatever the name, no `{{Items}}` is left in the store exactly when the item holds none |
| `PlaceholderProperties.StoresTokenCount` | G3.Culvers.FlavorOfTheDay/Function.cs:82-88 | for any zip and store region, the body holds the `{{Stores}}` left in the zip once the store region is substituted into it, plus those of the store region |
| `PlaceholderProperties.StoresTokenGone` | G3.Culvers.FlavorOfTheDay/Function.cs:82-88 | for a zip without `{{Stores}}`, the body holds exactly as many `{{Stores}}` as the store region |
| `PlaceholderProperties.StoresBraceless` | G3.Culvers.FlavorOfTheDay/Function.cs:69-78 | the store region of brace-free locations holds no `{{` |
| `PlaceholderProperties.NoBracePairLeft` | G3.Culvers.FlavorOfTheDay/Function.cs:70-88 | when neither the zip nor any field holds a brace, the body holds no `{{` |
| `PlaceholderProperties.NoPlaceholderLeft` | G3.Culvers.FlavorOfTheDay/Function.cs:70-88 | in that case no placeholder of any kind is left in the body |
| `StoreMarkers.StoreMarkersOfOne` | G3.Culvers.FlavorOfTheDay/Function.cs:25 | the fragment of a location with plain fields holds `<div class='store'>` exactly once |
| `StoreMarkers.StoresMarkerCount` | G3.Culvers.FlavorOfTheDay/Function.cs:69-78 | the store region of plain locations holds one `<div class='store'>` per location |
| `StoreMarkers.PageMarkers` | G3.Culvers.FlavorOfTheDay/Function.cs:82-88 | with a plain zip, every `<div class='store'>` of the body belongs to the store region |
| `StoreMarkers.MarkerCount` | G3.Culvers.FlavorOfTheDay/Function.cs:70-88 | when neither the zip nor any field holds `{` or `<`, the body holds `<div class='store'>` exactly once per location |

## Left out

- `Main` (Function.cs:50-57) is the Lambda runtime bootstrap and has no effect on the page.
- The static constructor (Function.cs:29-44) only wires up dependency injection, logging and the HTTP client.
- The HTTP GET and JSON deserialization (Function.cs:63-68) are network I/O. `FunctionHandler` takes their outcome as the parameter `upstream`: the deserialized answer, which may be null, or the reason the call failed. A failure becomes `UpstreamFault`.
- The request URL (Function.cs:68) only feeds that call, so it is not built.
- The .NET exceptions are not simulated. A missing query map or `zip` key (Function.cs:66) and an upstream failure become `Failure` values of `Fault`.
- A null element inside the locations array would throw `NullReferenceException` at Function.cs:74. Locations here are values, so that case is not represented.
- A null `zip` value in the query map is not represented: the map's values are strings.
- The `ILambdaContext` argument is unused by the handler, so it is dropped.
- `StringBuilder` is modelled by string concatenation (`BuildStoreText`), which has the same content.
- `string.Replace` is modelled only for the ordinal `(string, string)` overload with a non-empty pattern, which is the only way the handler calls it.
- PlaceholderProperties.StoresTokenGone: requires a zip without `{{Stores}}`, the case where the count reduces to that of the store region. The count for an arbitrary zip is `PlaceholderProperties.StoresTokenCount`.
- StoreMarkers.MarkerCount: requires that no value holds `{` or `<`, which is stronger than "no placeholder-like text". A value holding markup can add store markers; the markers of the templates themselves sit in fixed text and are always counted.
- PlaceholderProperties.NoPlaceholderLeft: requires brace-free values rather than values free of whole placeholders. Its ensures quantifies over every `{{…}}`-shaped string, not only the six placeholders of the templates, and the values are inserted verbatim, so a `{{…}}`-shaped string in a value that no later substitution matches reaches the body; a brace-free value carries none. For each template placeholder, the count right after its own substitution is exact without that restriction: `ItemNameCount`, `StoreNameCount`, `TitleTokenCount`, `ImageUrlTokenCount` (finished item), `ItemsTokenExact` (finished store) and `StoresTokenCount` (whole body). A later substitution can still bring a placeholder back, so only the last of these counts in the body itself.
- Strings are Dafny `string`, a sequence of Unicode scalar values, while .NET strings are sequences of UTF-16 code units. Every pattern and every template character is ASCII, so matching and replacement give the same results over either representation.
- StringReplace.Replace: its own contract states only length preservation. Its full meaning is proved separately, in `StringReplace.ReplaceIsJoinOfSplit`.
