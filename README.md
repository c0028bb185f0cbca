# Personal userscripts, modelled in Dafny

A model of four browser userscripts, with proofs about the model.

- **Copy Page Link with Metadata** (`copy_link_with_metadata.user.js`). A menu command reads the page's metadata: title, canonical link, thumbnail, description and site name. When the canonical URL differs from the current one, it asks the user which URL to use. It then builds an HTML snippet whose page-supplied text is escaped, writes the snippet to the clipboard, and reports the result in a toast.
- **Fogos.pt geolinks** (`fogospt_geolinks.user.js`). In every `.f-location` element not yet marked as processed, it finds the first coordinate pair. It then replaces the element's content with a container holding three things: the page's own Google Maps link (when there is one), a link to omaps.app and a copy button.
- **Infopedia cross-dictionary links** (`infopedia_cross_dictionary_links.user.js`). On a Portuguese–English dictionary page it adds a link to the same word in the Portuguese-for-foreigners dictionary, and the other way round.
- **Biodiversity4all redirector** (`biodiversity4all_redirector.user.js`). It sends an observation page to the same observation on iNaturalist.

Parts that are pure computation are modelled as functions:
- the metadata fallback chains
- `escapeHtml`
- the snippet
- the coordinate pattern
- the dictionary and redirect URLs

State that the scripts update in place is modelled as classes:
- the dialog's checked button and its promise
- the toast-style flag
- the toasts, the clipboard and the element nodes

The page is an input. `Page` is the result of each DOM query the script makes, and `ElementState` is the result of each `.f-location` element's query. The `URL` constructor, the user's actions and the clipboard's behaviour are inputs as well.

Modules:
- `Wrappers`: the `Option` type.
- `JsString`: `includes`, `startsWith`, `indexOf`, `split(sep)[1]`, `length` and truthiness, over `seq<char>`.
- `HtmlEscape`, `PageMetadata`, `LinkSnippet`, `UrlChoiceDialog`, `PageLinkCopier`: the copy-link script.
- `GeoLinks` (the pattern, the text and the URL) and `GeoPage` (the element rewrite and the loop): the Fogos.pt script.
- `DictionaryLinks`: the Infopedia script.
- `ObservationRedirect`: the redirector.

Where the code and its own header disagree, the model follows the code:
- The changelog says a description shorter than 8 characters counts as missing; the code uses 12 (`MinDescriptionLength`), counted in UTF-16 code units as JavaScript's `length` does.
- `escapeHtml` leaves `"` and `'` unescaped. `HtmlEscape.QuotesUnescaped` states this. A URL holding `"` therefore ends the `href`/`src` attribute early.

The two dictionary pages of a word link to each other when the word holds no `/` (`LinksAreMutual`); a word such as `a/b` is linked both ways too (`SlashedWordStillMutual`). A foreigners' page is classified by the first test, so when its path includes the English prefix it is taken for an English page. For a word such as `dicionarios/portugues-ingles/x`, the English prefix is found inside the foreigners' path, so that page links into the foreigners' dictionary again instead of back (`SlashedWordBreaksMutualLinks`).

## Model

| member | source | states |
|---|---|---|
| JsString.IndexOf | infopedia_cross_dictionary_links.user.js:24-26 | Returns the leftmost occurrence of the pattern at or after the start index; None exactly when none occurs there. |
| JsString.Includes | infopedia_cross_dictionary_links.user.js:24 | `includes` is true exactly when the pattern occurs at some index. |
| JsString.SplitSecond | infopedia_cross_dictionary_links.user.js:26 | `split(sep)[1]` is undefined exactly when `sep` is absent. Otherwise it starts right after the first `sep`, no `sep` starts anywhere inside it, and it runs up to the next `sep` or the end; so it also holds no `sep`. |
| JsString.IncludesPrefix | infopedia_cross_dictionary_links.user.js:24 | A string includes any of its own prefixes. |
| JsString.Utf16Length | copy_link_with_metadata.user.js:92 | The `.length` of a string in UTF-16 code units lies between its number of characters and twice that number. |
| JsString.Utf16LengthBmp | copy_link_with_metadata.user.js:92 | For text inside the Basic Multilingual Plane, `.length` equals the number of characters. |
| JsString.Utf16LengthCountsAstral | copy_link_with_metadata.user.js:92 | `.length` equals the number of characters exactly when no character lies above U+FFFF, and twice that number exactly when every character does. |
| JsString.Utf16LengthConcat | copy_link_with_metadata.user.js:92 | The `.length` of a concatenation is the sum of the two lengths. |
| HtmlEscape.Escape | copy_link_with_metadata.user.js:106-110 | The escaped text holds no `<`, no `>` and no U+00A0, and is never shorter than the input. |
| HtmlEscape.EscapeChar | copy_link_with_metadata.user.js:106-110 | A character is serialised as itself exactly when it is none of `&`, U+00A0, `<`, `>`. Each of those becomes a character reference, from `&` to `;`. |
| HtmlEscape.UnescapeEscape | copy_link_with_metadata.user.js:106-110 | Decoding the four character references gives back the original text, so escaping loses nothing. |
| HtmlEscape.UnescapeEscapeChar | copy_link_with_metadata.user.js:106-110 | Each escaped character decodes to itself, whatever follows it. |
| HtmlEscape.EscapeConcat | copy_link_with_metadata.user.js:106-110 | Escaping distributes over concatenation. |
| HtmlEscape.EscapeIdentity | copy_link_with_metadata.user.js:106-110 | Escaping leaves a text unchanged if and only if it holds none of `&`, U+00A0, `<`, `>`. |
| HtmlEscape.QuotesUnescaped | copy_link_with_metadata.user.js:106-110 | `"` and `'` pass through unchanged. |
| PageMetadata.RawThumbnail | copy_link_with_metadata.user.js:74-78 | A falsy primary thumbnail is replaced by the icon link's href. A truthy result comes from og:image, image_src or the icon. |
| PageMetadata.ResolveThumbnail | copy_link_with_metadata.user.js:80-83 | The step fails only on a relative value that the resolver rejects, and then reports that value. Falsy and absolute values are kept verbatim. A truthy result is either the absolute input or the resolver's output for the input. |
| PageMetadata.ResolutionIsStable | copy_link_with_metadata.user.js:80-83 | When the resolver only yields absolute URLs, resolving an already resolved thumbnail again changes nothing. |
| PageMetadata.SelectDescription | copy_link_with_metadata.user.js:85-96 | The result is og:description when its element exists, otherwise meta description. It is dropped exactly when it is non-empty and shorter than 12 UTF-16 code units. A truthy result has at least 12 code units. |
| PageMetadata.AstralDescriptionKept | copy_link_with_metadata.user.js:92-94 | A description of six emoji is kept: it is only six characters, but twelve code units. |
| PageMetadata.GetPageMetadata | copy_link_with_metadata.user.js:56-103 | Throws exactly when the thumbnail before resolution is a relative URL the resolver rejects, and the rejected value is one of the page's image or icon values. Otherwise the title, URL, canonical link and site name are the page's own. A truthy description has at least 12 code units and comes from og:description or meta description. A truthy thumbnail is an absolute value from og:image, image_src or the icon, or the resolver's output for one of them. |
| PageMetadata.ThumbnailOrder | copy_link_with_metadata.user.js:69-83 | The thumbnail priority: an absolute og:image, then an absolute image_src when og:image is absent, then an absolute icon, and null when no element is present. |
| PageMetadata.EmptyOgImageSkipsImageSrc | copy_link_with_metadata.user.js:72-78 | With an empty og:image, image_src is never consulted and the icon is used. |
| LinkSnippet.ComposeTitle | copy_link_with_metadata.user.js:116-119 | The title always ends the result and a truthy site name is always included. The site name and an em dash are prepended exactly when the title does not already include the site name. |
| LinkSnippet.ComposeTitleIdempotent | copy_link_with_metadata.user.js:116-119 | Composing the title a second time changes nothing. |
| LinkSnippet.GenerateLink | copy_link_with_metadata.user.js:113-135 | The snippet opens with the anchor for the escaped URL. It ends with the image line when the thumbnail is truthy, and otherwise with the description line when the description is truthy. |
| LinkSnippet.GenerateLinkLayout | copy_link_with_metadata.user.js:113-135 | The snippet is the anchor for the composed title, then the description line exactly when the description is truthy, then the image line exactly when the thumbnail is truthy. |
| LinkSnippet.EscapedTitle | copy_link_with_metadata.user.js:114-119 | Escaping the site name and the title separately equals escaping the composed title. |
| LinkSnippet.SnippetTagCount | copy_link_with_metadata.user.js:122-132 | Every `<` in the snippet comes from the template: 2 for the anchor, plus 3 when the description is present, plus 2 when the thumbnail is present. |
| LinkSnippet.AnchorTagCount | copy_link_with_metadata.user.js:122 | The anchor holds exactly two `<`, whatever the URL and title. |
| LinkSnippet.DescriptionTagCount | copy_link_with_metadata.user.js:126 | The description line holds exactly three `<`. |
| LinkSnippet.ImageTagCount | copy_link_with_metadata.user.js:131 | The image line holds exactly two `<`. |
| UrlChoiceDialog.Step | copy_link_with_metadata.user.js:226-245 | In a settled dialog, every event is ignored; while it is open, other keys are ignored too. Cancel and Escape resolve with null; confirm resolves with the checked button's URL. The resolved value is always one of null, the current URL or the canonical URL. |
| UrlChoiceDialog.Run | copy_link_with_metadata.user.js:199-245 | A settled dialog stays as it is. A dialog still open at the end was open at the start, and saw no confirm, no cancel and no Escape. |
| UrlChoiceDialog.RunAppend | copy_link_with_metadata.user.js:226-245 | Running two event sequences one after the other is running their concatenation. |
| UrlChoiceDialog.SettledIsFinal | copy_link_with_metadata.user.js:226-245 | Once the promise has resolved, no further event changes the dialog. |
| UrlChoiceDialog.RunOutcome | copy_link_with_metadata.user.js:172-247 | After any sequence of events, a resolved dialog holds null, the current URL or the canonical URL. |
| UrlChoiceDialog.SelectionWhileOpen | copy_link_with_metadata.user.js:199-230 | While the dialog is open, the checked button is the one checked last, or "current" if none was. |
| UrlChoiceDialog.ConfirmOutcome | copy_link_with_metadata.user.js:226-230 | Confirming resolves with the canonical URL if and only if "canonical" was checked last. |
| UrlChoiceDialog.DismissOutcome | copy_link_with_metadata.user.js:232-244 | Cancel and Escape both resolve an open dialog with null. |
| UrlChoiceDialog.Dialog.constructor | copy_link_with_metadata.user.js:199-220 | The dialog opens with "current" checked and the promise pending. |
| UrlChoiceDialog.Dialog.Handle | copy_link_with_metadata.user.js:226-245 | Each handler changes the dialog's state exactly as `Step` does. |
| PageLinkCopier.Deliver | copy_link_with_metadata.user.js:270-294 | The success toast appears exactly when something was written, and what was written holds the snippet. The rich item is written exactly when the rich write succeeds. Nothing is written, and the failure toast appears, exactly when all three clipboard routes fail. |
| PageLinkCopier.CopyOutcomeFor | copy_link_with_metadata.user.js:253-288 | The dialog is shown exactly when the canonical URL is truthy and differs from the current one. A pending dialog leaves everything untouched. A falsy answer gives the cancel toast. Anything written is the snippet for the current or the canonical URL. |
| PageLinkCopier.CopyPageLinkOutcome | copy_link_with_metadata.user.js:250-295 | A failed thumbnail resolution ends in the failure toast with no dialog and no write. Otherwise the dialog condition holds and every write carries the snippet for the current or the canonical URL. |
| PageLinkCopier.CancelWritesNothing | copy_link_with_metadata.user.js:257-263 | Cancelling by button or by Escape writes nothing and shows the cancel toast. |
| PageLinkCopier.ConfirmCopiesChosenUrl | copy_link_with_metadata.user.js:257-288 | Confirming delivers the snippet for the URL whose button was checked last. |
| PageLinkCopier.AwaitChoice | copy_link_with_metadata.user.js:257 | Feeding events to the dialog until it settles yields the status that the event sequence determines. |
| PageLinkCopier.PageLinkCopier.constructor | copy_link_with_metadata.user.js:20 | The script starts with the style flag unset, no style element and no toast. |
| PageLinkCopier.PageLinkCopier.InitToastStyles | copy_link_with_metadata.user.js:23-53 | Afterwards the flag is set and exactly one style element exists. A second call appends nothing. |
| PageLinkCopier.PageLinkCopier.ShowToast | copy_link_with_metadata.user.js:138-169 | The styles are initialised and the toast is appended; the clipboard is unchanged. |
| PageLinkCopier.PageLinkCopier.CopyPageLink | copy_link_with_metadata.user.js:250-295 | The clipboard, the toasts, the dialog count and the style flag change exactly as `CopyPageLinkOutcome` says. |
| PageLinkCopier.PageLinkCopier.CopyWithMetadata | copy_link_with_metadata.user.js:253-290 | The state changes exactly as `CopyOutcomeFor` says. |
| PageLinkCopier.PageLinkCopier.WriteToClipboard | copy_link_with_metadata.user.js:270-288 | The state changes exactly as `Deliver` says: the first clipboard route that works, then one toast. |
| GeoLinks.DigitRunSpan | fogospt_geolinks.user.js:62 | A greedy `\d+` run covers digits only, and stops at a non-digit or at the end. |
| GeoLinks.IsSpace | fogospt_geolinks.user.js:62 | `\s` matches none of the characters a number or the comma is made of, so the spacing cannot swallow part of the pattern. |
| GeoLinks.SpaceRunSpan | fogospt_geolinks.user.js:62 | A greedy `\s*` run covers white space only, and stops at a non-space or at the end. |
| GeoLinks.SignEnd | fogospt_geolinks.user.js:62 | `-?` consumes one character exactly when it is `-`. |
| GeoLinks.NumberEndSound | fogospt_geolinks.user.js:62 | What the number matcher consumes has the shape `-?\d+\.\d+` and is not followed by a digit. |
| GeoLinks.NumberEndComplete | fogospt_geolinks.user.js:62 | A number of that shape that is not followed by a digit is exactly what the matcher consumes. |
| GeoLinks.MatchAt | fogospt_geolinks.user.js:62-63 | A match at an index is the text found there: the latitude, the comma, the spacing and the longitude, side by side. |
| GeoLinks.MatchAtSound | fogospt_geolinks.user.js:62-63 | A match that the matcher finds at an index satisfies the declarative description there. |
| GeoLinks.MatchAtComplete | fogospt_geolinks.user.js:62-63 | Any text that satisfies the description at an index is what the matcher finds there. |
| GeoLinks.FindFrom | fogospt_geolinks.user.js:63 | Returns the first index at or after the start where the matcher succeeds; None means it succeeds nowhere. |
| GeoLinks.FindCoordinates | fogospt_geolinks.user.js:62-67 | `textContent.match(pattern)` is a match, no match starts earlier, and null means no match exists. |
| GeoLinks.FindCoordinatesAt | fogospt_geolinks.user.js:63 | A match with no earlier match is the one returned. |
| GeoLinks.DisplayTextReparses | fogospt_geolinks.user.js:66-85 | Scanning the link text again gives back the same two numbers, separated by one space. |
| GeoLinks.DisplayText | fogospt_geolinks.user.js:68 | The link text is the latitude, then a comma and one space, then the longitude. |
| GeoLinks.PrefixBlocksMatch | fogospt_geolinks.user.js:84 | No match can start inside `https://omaps.app/`. |
| GeoLinks.MapUrl | fogospt_geolinks.user.js:84 | The `href` is `https://omaps.app/`, the latitude, a comma, then the longitude. |
| GeoLinks.MapUrlReparses | fogospt_geolinks.user.js:84 | Scanning the `href` again gives back the same two numbers, right after the prefix. |
| GeoPage.IconParentFrom | fogospt_geolinks.user.js:126-128 | The search returns the parent of the first `i` element, in document order, that lies inside a Google Maps anchor, and None exactly when there is no such `i`. |
| GeoPage.MapLinkOf | fogospt_geolinks.user.js:126-128 | `querySelector('a[href*="google.com/maps"] i').parentElement`: the parent of the first matching `i` element in document order, or None when no `i` element lies inside a Google Maps anchor. |
| GeoPage.MapLinkIsIconParent | fogospt_geolinks.user.js:126-128 | For `<a><span><i>` the node kept is the span, the `i` element's parent, not the anchor. |
| GeoPage.IconOutsideAnchorIgnored | fogospt_geolinks.user.js:126-128 | An `i` element outside every Google Maps anchor is not kept. |
| GeoPage.ProcessIdempotent | fogospt_geolinks.user.js:57-71 | Processing an element twice equals processing it once. |
| GeoPage.ProcessOutcome | fogospt_geolinks.user.js:57-71 | An element is left as it was if and only if it was marked or its text holds no pair. It ends up marked if and only if it was marked or its text holds a pair. |
| GeoPage.RewrittenLinkAgrees | fogospt_geolinks.user.js:63-138 | A rewritten element holds one container. Both the link's `href` and its text reparse to the two numbers first found in the element's text. |
| GeoPage.TextContentConcat | fogospt_geolinks.user.js:63 | `textContent` of concatenated node lists is the concatenation of their `textContent`. |
| GeoPage.ContainerText | fogospt_geolinks.user.js:126-138 | The new text is the kept map link's text, then the displayed coordinates, then the copy button's label. |
| GeoPage.Process | fogospt_geolinks.user.js:55-139 | A marked element is left alone. Any other element is either left as it was, or marked with exactly one child. |
| GeoPage.LocationElement.constructor | fogospt_geolinks.user.js:53 | An element holds the given mark and children. |
| GeoPage.LocationElement.ProcessOnce | fogospt_geolinks.user.js:55-139 | One pass of the `forEach` callback sets the element's state to `Process` of its old state. |
| GeoPage.ProcessCoordinates | fogospt_geolinks.user.js:52-141 | Every listed element ends in `Process` of its old state, even when it is listed twice. |
| DictionaryLinks.WordAfter | infopedia_cross_dictionary_links.user.js:26-35 | The word is exactly `split(prefix)[1]` when that is truthy, and None exactly when it is falsy. It follows a prefix in the path and holds no copy of the prefix. |
| DictionaryLinks.CrossLinkFor | infopedia_cross_dictionary_links.user.js:18-40 | The link goes to the dictionary other than the one the path is classified as, with the English prefix tested first: it has the Portuguese flag and the label "Português para Estrangeiros" if and only if the path holds the English prefix, and otherwise the English flag and the label "Português-Inglês". Its target is that other dictionary's prefix followed by `split(classifyingPrefix)[1]`. There is no link exactly when that piece is falsy. |
| DictionaryLinks.LinkLeadsToOtherDictionary | infopedia_cross_dictionary_links.user.js:24-39 | Every link's target is one dictionary's prefix followed by a non-empty word, and its flag is that dictionary's: the dictionary other than the one the path is classified as. |
| DictionaryLinks.SplitAfterPrefix | infopedia_cross_dictionary_links.user.js:26-34 | For a path that starts with a prefix and holds no further copy of it, the word is the rest of the path. |
| DictionaryLinks.EstrangeirosPathIsNotIngles | infopedia_cross_dictionary_links.user.js:24-32 | A foreigners' page whose word has no `/` is never taken for an English page. |
| DictionaryLinks.LinksAreMutual | infopedia_cross_dictionary_links.user.js:18-40 | For a non-empty word without `/`, the English page links to the foreigners' page of the same word and back. |
| DictionaryLinks.SlashedWordLinksAway | infopedia_cross_dictionary_links.user.js:24-32 | A word that begins with `dicionarios/portugues-ingles/` makes its foreigners' page look like an English page, so that page never links back. |
| DictionaryLinks.SlashedWordBreaksMutualLinks | infopedia_cross_dictionary_links.user.js:18-40 | For the word `dicionarios/portugues-ingles/x`, the English page links to the foreigners' page, which does not link back. |
| DictionaryLinks.SlashedWordStillMutual | infopedia_cross_dictionary_links.user.js:18-40 | The pages of the word `a/b` still link to each other, although the word holds a `/`: its foreigners' path holds no English prefix. |
| DictionaryLinks.EmptyWordNoLink | infopedia_cross_dictionary_links.user.js:26-35 | A bare dictionary path with no word gets no link. |
| ObservationRedirect.LineRunSpan | biodiversity4all_redirector.user.js:20 | A greedy `.` run excludes line terminators, and stops at one or at the end. |
| ObservationRedirect.FirstMatchFrom | biodiversity4all_redirector.user.js:20 | Returns the first index at or after the start where `/observations/` is followed by a non-terminator; None means there is none. |
| ObservationRedirect.FindObservation | biodiversity4all_redirector.user.js:20 | Returns the leftmost match, or null when there is none. Its group follows the segment, is non-empty, holds no line terminator, and ends at a line terminator or the end. |
| ObservationRedirect.RedirectTarget | biodiversity4all_redirector.user.js:20-24 | Redirects exactly when the pattern matches (the group is always truthy), to the iNaturalist base followed by the group. |
| ObservationRedirect.FindOnHost | biodiversity4all_redirector.user.js:20 | On a host with no `/o`, the match is at the segment after the host, and the group is the whole rest of the URL. |
| ObservationRedirect.ObservationPageRedirects | biodiversity4all_redirector.user.js:17-27 | A biodiversity4all observation URL redirects to the same path on www.inaturalist.org. |
| ObservationRedirect.BareObservationsPageStays | biodiversity4all_redirector.user.js:20-22 | `/observations/` with nothing after it is not redirected. |
| ObservationRedirect.RedirectIdempotent | biodiversity4all_redirector.user.js:20-24 | The target URL, matched again, redirects to itself. |
| ObservationRedirect.NoSegmentNoRedirect | biodiversity4all_redirector.user.js:20-22 | A URL without `/observations/` is never redirected. |

## Left out

- Layout and styling are not modelled. This covers CSS text, `style.cssText`, the keyframes' content, hover handlers and the toast removal timers (`setTimeout`). None of it affects the values the scripts compute. `InitToastStyles` counts the style elements it adds.
- Script wiring is not modelled: `GM_registerMenuCommand`, `console` logging, the `DOMContentLoaded`, 1-second and SPA (`pushState`/`replaceState`/`popstate`/polling) triggers of `processCoordinates`, and `@run-at`. `ProcessCoordinates` models one run, and `ProcessIdempotent` makes repeated runs harmless.
- The `URL` constructor, the user's dialog actions and the clipboard are inputs (`UrlResolver`, `seq<UserEvent>`, `ClipboardEnv`). Asynchrony is not modelled: an event sequence that never settles the dialog stands for a `copyPageLink` that never finishes.
- `GM_setClipboard` is assumed not to throw. If it threw, the outer catch would show the failure toast; the model does not include this path.
- The Escape `keydown` listener stays registered after confirm or cancel. The model captures this only as "a settled dialog ignores events".
- `showNotification`, `copyToClipboard` and the copy button's click handler in the Fogos.pt script are not modelled. They only display the same `DisplayText` string and write it to the clipboard.
- `PageLinkCopier.ConfirmCopiesChosenUrl` requires a non-empty current URL. With an empty current URL, confirming "current" would be taken as a cancel, and `CopyOutcomeFor` states that case.
- `GeoPage.MapLinkOf`: the element is taken to be the search root and is not itself a Google Maps anchor. Anchors around the element are not considered. The model keeps the value of the `i` element's parent node (for `<a><span><i>` the span), not the identity of the DOM node that is moved.
- `GeoPage.ProcessCoordinates`: nested `.f-location` elements are not modelled; the elements are assumed to be disjoint objects.
- Rendering the cross-dictionary link (`addCrossLink`: the `.nav-container` and `#search-dicio-container` lookups, the inserted elements and the `DOMContentLoaded` wait) is not modelled. The model stops at the `targetDict`, `iconSrc` and `linkText` values.
- `window.location.replace` is not modelled; `RedirectTarget` returns the URL passed to it.
- `ipma_pause_svg_animations.user.js` is not part of this model.
- Strings are sequences of Unicode scalar values, so a JavaScript string holding a lone surrogate cannot be represented. `PageMetadata.SelectDescription` measures length in UTF-16 code units (`Utf16Length`) only for well-formed text.
- The model has no URL normaliser, no author or og:title extraction, and no trimming of the description before the length test, because the code has none of these.
