# pludooprint report-engine adapter, modelled in Dafny

pludooprint replaces the PDF back end of the host framework's report action
(`ir.actions.report`) with the PlutoPrint engine. This project models the
adapter's core and proves properties of the model:

- **Paper format to CSS.** `_paperformat_to_css_rules` of the report model and
  `build_engine_css` / `_build_engine_css_template` of the helpers both turn a
  paper-format record and the template's `data-report-*` attributes into an
  `@page` stylesheet. The model covers landscape resolution, the choice of
  the `size:` declaration, margin and header-spacing overrides, and the exact
  template text. Modules: `PaperFormat`, `PaperCss`, `PlutoprintHelpers`.
- **Head injection.** `inject_css` and its in-method copy `_inject_many_css`
  insert a `<style>` element right after the first `<head>`
  (`PlutoprintHelpers`).
- **Stream bookkeeping.** `_render_qweb_pdf_prepare_streams` does the following:
  - collects one entry per distinct record id, in first-occurrence order;
  - reuses stored attachments when allowed;
  - decides whether the engine is needed;
  - rejects templates whose record markers do not match;
  - returns either one stream per record or one merged document under the key
    `False`.

  Module: `PrepareStreams`.
- **Page merging.** `_merge_streams` concatenates pages (`PdfMerge`).
- **Resource fetcher.** `fetch_url` is the callback the engine uses for every
  asset. It resolves the URL, keeps a per-URL cache, replaces some fonts with
  placeholders, forwards the session cookie to the base host and to any URL
  whose text contains `/web/content/`, and
  degrades failures to empty resources (`ResourceFetcher`).

Shared building blocks:

- `Text` holds Python's `find`, `in`, `startswith`, `endswith`, `join`,
  `lstrip` and `rstrip` of one character, `strip`, `split(sep)[0]` on a
  one-character separator, and `lower`.
- `PyValues` holds Python values with their truthiness, `or`, `== True` and
  f-string rendering.
- `Outcomes` holds `Option` and `Result`.

Modelling choices:

- Byte strings are `string`, one character per byte. CSS text is taken as
  already encoded.
- The host framework is the `Host` datatype of `PrepareStreams`. Its fields
  are:
  - whether the engine can be imported;
  - the `report_pdf_no_attachment` and `landscape` context keys;
  - attachment retrieval;
  - HTML rendering;
  - `_prepare_html`;
  - the resolved paper format;
  - the session cookie header.
- The engine call `_render_with_plutoprint` is not computed. Its output
  appears as `Rendered(k, html, cookie)`: the k-th engine call on `html` with
  `cookie`.
- A merged document is `Merged(parts)`. `PdfMerge` models what merging does
  to pages.
- The fetcher's mutable cache is threaded through `FetchUrl`, which returns:
  - the answer, or none when an exception leaves `fetch_url` (the `data:`
    decoder raised, or `urlparse` raised while a cookie is set);
  - the fetcher after the call;
  - the HTTP request it sent, if any.
- URL joining, host extraction, the engine's own `data:` decoder and the HTTP
  client are parameters of `ResourceFetcher.Env`.

Two facts about the code stand out in the model:

1. In the per-record branch, every record lacking a stream receives a
   rendering of the same full document, which holds all of those records.
   `PerRecordStreams` states this: the record of rank k gets
   `Rendered(k, EngineDocument(...), cookie)`.
2. The loop at lines 131-134 produces exactly one stream per record without
   a stream. As a result, the template-id fallback at lines 145-154 cannot be
   reached (`PerRecordFallbackUnreachable`). The fallback is modelled all the
   same (`TemplateIdsFallback`).

The cookie is forwarded when `/web/content/` occurs anywhere in the URL
(pludooprint/models/ir_actions_report_pluto.py:273), not only in its path;
`ForwardsCookie` uses the same test.

## Model

| member | source | states |
|---|---|---|
| PyValues.Or | pludooprint/models/ir_actions_report_pluto.py:175-182 | `a or b` yields `a` when truthy, else `b`; the result is truthy exactly when one operand is |
| PyValues.NatToDecimal | pludooprint/models/ir_actions_report_pluto.py:169-173 | `f"{n}"` of a number is a non-empty string of decimal digits without leading zero |
| PyValues.DecimalRoundTrip | pludooprint/models/ir_actions_report_pluto.py:169-173 | reading the decimal rendering of a number back gives the number: the rendering loses nothing |
| PyValues.Get | pludooprint/models/ir_actions_report_pluto.py:161-163 | `specific_args.get(key)` is the stored value, or `None` for a missing key |
| Text.Find | pludooprint/models/plutoprint_helpers.py:67 | `find` returns -1 exactly when the marker does not occur, else the first position where it occurs |
| Text.Join | pludooprint/models/plutoprint_helpers.py:69 | `"\n".join` of no part is empty and of one part is that part; otherwise its length is the parts plus one separator between each pair |
| Text.JoinSnoc | pludooprint/models/plutoprint_helpers.py:69 | joining one more part appends the separator and then that part, so the parts appear in their order |
| Text.LStrip | pludooprint/models/ir_actions_report_pluto.py:252 | `lstrip("/")` removes exactly the leading slashes, and the result does not start with one |
| Text.RStrip | pludooprint/models/ir_actions_report_pluto.py:244 | `rstrip("/")` removes exactly the trailing slashes, and the result does not end with one |
| Text.Lower | pludooprint/models/ir_actions_report_pluto.py:258 | `lower()` keeps the length and lowers each ASCII capital |
| Text.IsSpace | pludooprint/models/ir_actions_report_pluto.py:285 | the ASCII characters `strip()` removes: 9 to 13, the separators 28 to 31, and space; no ensures, used by Strip |
| Text.LowerIdempotent | pludooprint/models/ir_actions_report_pluto.py:258 | lowering an already lowered URL changes nothing |
| Text.Strip | pludooprint/models/ir_actions_report_pluto.py:285 | `strip()` gives a slice of its input with only whitespace before and after it, and with no whitespace at either end |
| Text.StripIsUnique | pludooprint/models/ir_actions_report_pluto.py:285 | any slice with those two properties is the strip, so only the edge whitespace is removed |
| Text.StripAllSpace | pludooprint/models/ir_actions_report_pluto.py:285 | text made only of whitespace, the ASCII separators included, strips to the empty string |
| Text.BeforeFirst | pludooprint/models/ir_actions_report_pluto.py:285 | `split(";")[0]` is a prefix without `;`, followed in the input by `;` unless it is the whole input |
| PaperFormat.ResolveLandscape | pludooprint/models/ir_actions_report_pluto.py:163-165 | an explicit flag wins; without one, landscape holds exactly when the attribute is one of True, 1, 1.0, "True", "true" or "1" |
| PaperFormat.SizeCssAsWritten | pludooprint/models/ir_actions_report_pluto.py:167-189 | the two-step size computation (compute, then overwrite under landscape) always agrees with the declarative choice: name, else dimensions turned under landscape, else nothing |
| PaperFormat.NamedFormatSize | pludooprint/models/ir_actions_report_pluto.py:168-185 | a named format other than `custom` gives `size: F;`, or `size: F landscape;` under landscape |
| PaperFormat.CustomSizeSwapsUnderLandscape | pludooprint/models/ir_actions_report_pluto.py:170-189 | without a usable name, the declaration is `size: Wmm Hmm;`, with width and height swapped under landscape |
| PaperFormat.NoSizeWithoutFormatOrDimensions | pludooprint/models/ir_actions_report_pluto.py:167-189 | with neither a usable name nor both dimensions, there is no size declaration |
| PaperCss.PageMargins | pludooprint/models/ir_actions_report_pluto.py:175-179 | top and bottom margins take a truthy attribute override, else the paper's; right and left always come from the paper |
| PaperCss.HeaderSpacing | pludooprint/models/ir_actions_report_pluto.py:181-182 | the spacing is a truthy attribute, else a truthy paper spacing, else 0; it is always truthy or 0 |
| PaperCss.PaperformatToCssRules | pludooprint/models/ir_actions_report_pluto.py:160-198 | the stylesheet is the `@page` template filled with the chosen size, the resolved margins and the resolved header spacing |
| PaperCss.RulesDeclareSize | pludooprint/models/ir_actions_report_pluto.py:184-193 | the stylesheet opens with `@page {` and the size declaration for the resolved landscape flag |
| PaperCss.RulesDeclareMarginsAndSpacing | pludooprint/models/ir_actions_report_pluto.py:191-196 | the stylesheet contains the margin rule of the resolved margins and the header padding of the resolved spacing |
| PaperCss.PortraitA4WithHeaderSpacing | pludooprint/tests/test_ir_actions_report_pluto.py:78-94 | for A4 without landscape and a header-spacing attribute of 5, the stylesheet contains `size: A4;` and `padding-bottom: 5mm` |
| PaperCss.LandscapeA4FromAttribute | pludooprint/tests/test_ir_actions_report_pluto.py:95-98 | with no flag and a landscape attribute of True, the stylesheet contains `size: A4 landscape;` |
| PlutoprintHelpers.TemplateOpensWithSize | pludooprint/models/plutoprint_helpers.py:4-7 | the engine template opens with `@page {` followed by the size declaration it is given |
| PlutoprintHelpers.TemplateDeclaresMargins | pludooprint/models/plutoprint_helpers.py:4-8 | the engine template declares its margins in CSS order: top, right, bottom, left |
| PlutoprintHelpers.EngineCssTemplate | pludooprint/models/plutoprint_helpers.py:4-35 | `_build_engine_css_template`: the `@page` rule with the size and the four margins, then the fixed header and page-counter rules; no ensures of its own, its opening is stated by TemplateOpensWithSize and its margins by TemplateDeclaresMargins |
| PlutoprintHelpers.BuildEngineCss | pludooprint/models/plutoprint_helpers.py:38-62 | the engine stylesheet is the template filled with the chosen size and the paper's right and left margins, with top and bottom at their defaults |
| PlutoprintHelpers.EngineCssDeclaresSize | pludooprint/models/plutoprint_helpers.py:41-62 | the engine stylesheet opens with the size declaration for the resolved landscape flag |
| PlutoprintHelpers.EngineCssMargins | pludooprint/models/plutoprint_helpers.py:4-62 | the engine stylesheet always asks for 2mm top and bottom margins and the paper's right and left margins |
| PlutoprintHelpers.EngineCssIgnoresOtherSettings | pludooprint/models/plutoprint_helpers.py:38-62 | two papers and attribute maps that agree on format, dimensions, right and left margins and landscape attribute give the same engine stylesheet |
| PlutoprintHelpers.StyleBlock | pludooprint/models/plutoprint_helpers.py:69 | the style element wraps the newline-joined stylesheets: empty for none, verbatim for one |
| PlutoprintHelpers.InjectCss | pludooprint/models/plutoprint_helpers.py:65-71 | a document without `<head>` is returned unchanged; otherwise it grows by exactly the style element |
| PlutoprintHelpers.InjectAfterFirstHead | pludooprint/models/plutoprint_helpers.py:66-70 | for any split of the document at its first `<head>`, the result is the text through that tag, then the style element, then the rest untouched |
| PlutoprintHelpers.InjectionIsRemovable | pludooprint/models/plutoprint_helpers.py:70 | cutting the style element out again right after the first `<head>` gives back the original document |
| PlutoprintHelpers.FirstHeadPreserved | pludooprint/models/plutoprint_helpers.py:66-70 | the first `<head>` of the result is where it was in the document, so a second injection lands at the same tag |
| PlutoprintHelpers.InjectSingleStylesheet | pludooprint/models/ir_actions_report_pluto.py:114-132 | the in-method copy, given the single paper-format stylesheet, splices `<style>css</style>` right after the first `<head>` |
| PrepareStreams.DuplicatedIdsMeansRepeat | pludooprint/models/ir_actions_report_pluto.py:53-54 | `len(res_ids) != len(set(res_ids))` on non-empty ids holds exactly when some id repeats |
| PrepareStreams.ElementsCount | pludooprint/models/ir_actions_report_pluto.py:53-54 | a sequence has at most as many distinct ids as entries, and as many exactly when no id repeats |
| PrepareStreams.FirstOccurrencesSpec | pludooprint/models/ir_actions_report_pluto.py:59-65 | the reference order has no repeats, has the same members as the ids, and orders them by first occurrence |
| PrepareStreams.LookupEntry | pludooprint/models/ir_actions_report_pluto.py:66-80 | with lookup off there is neither stream nor attachment; otherwise the attachment is kept, and the stream is the stored attachment exactly when one is found and reuse is on |
| PrepareStreams.Collect | pludooprint/models/ir_actions_report_pluto.py:59-80 | the collecting loop, which enters each id not yet entered with its looked-up entry; no ensures of its own, its result is stated by CollectIsFirstOccurrences |
| PrepareStreams.CollectIsFirstOccurrences | pludooprint/models/ir_actions_report_pluto.py:59-80 | the collecting loop, which skips ids already entered, yields each distinct id once in first-occurrence order with its looked-up entry |
| PrepareStreams.CollectedRecords | pludooprint/models/ir_actions_report_pluto.py:59-80 | collected ids are distinct and in first-occurrence order; repeated ids look up nothing; a record has a stream exactly when a stored stream is available for it |
| PrepareStreams.IdsWithoutStreamMembers | pludooprint/models/ir_actions_report_pluto.py:82-83 | an id is listed as lacking a stream exactly when some collected record with that id has no stream |
| PrepareStreams.WithoutStreamMembers | pludooprint/models/ir_actions_report_pluto.py:59-83 | the ids lacking a stream are distinct and are exactly the requested ids with no stored stream |
| PrepareStreams.FullHtml | pludooprint/models/ir_actions_report_pluto.py:84-93 | the HTML rendered for every id when ids repeat, otherwise for the ids without a stored stream; no ensures of its own, stated by FullHtmlRenders |
| PrepareStreams.FullHtmlRenders | pludooprint/models/ir_actions_report_pluto.py:84-93 | the full HTML is one rendering of all requested ids, repeats included, when ids repeat; otherwise of each requested id without a stored stream, once |
| PrepareStreams.IdsWithoutStreamDistinct | pludooprint/models/ir_actions_report_pluto.py:82-83 | the ids lacking a stream contain no repeat |
| PrepareStreams.RankOfMissing | pludooprint/models/ir_actions_report_pluto.py:82-83 | a record without stream sits, in the list of ids lacking a stream, at the position given by the number of such records before it |
| PrepareStreams.EngineNeededExactly | pludooprint/models/ir_actions_report_pluto.py:85-88 | the engine is needed exactly when there are no ids or some id has no stored stream available |
| PrepareStreams.StoredStreamsAreReused | pludooprint/models/ir_actions_report_pluto.py:85-88 | when every id has a stored stream, the collected mapping is returned as it is and each stream is the stored attachment |
| PrepareStreams.NonEmptyIds | pludooprint/models/ir_actions_report_pluto.py:100 | `[x for x in html_ids if x]` keeps exactly the present, non-zero record ids, is never longer than its input, and keeps every position when all are present and non-zero |
| PrepareStreams.NonEmptyIdsAppend | pludooprint/models/ir_actions_report_pluto.py:100 | the filter of a concatenation is the concatenation of the filters, so kept ids stay in their order |
| PrepareStreams.PrepareStreams | pludooprint/models/ir_actions_report_pluto.py:43-154 | the result is the unavailability error exactly when the engine is missing, and the template error exactly when the engine is needed and the template's record ids differ from those to render |
| PrepareStreams.DuplicatedOrEmptyIdsAreMerged | pludooprint/models/ir_actions_report_pluto.py:126-138 | repeated or no ids give a single entry under `False`: the merge of one engine rendering of the whole document, with no attachment |
| PrepareStreams.RenderEach | pludooprint/models/ir_actions_report_pluto.py:131-134 | the loop appends one stream per id, and stream k is the k-th engine call on the full document |
| PrepareStreams.EngineDocument | pludooprint/models/ir_actions_report_pluto.py:108-132 | the document sent to the engine; no ensures of its own, its contents are stated by EngineDocumentCarriesPaperCss |
| PrepareStreams.EngineDocumentCarriesPaperCss | pludooprint/models/ir_actions_report_pluto.py:108-132 | the full HTML with `<style>` + paper-format stylesheet + `</style>` spliced right after its first `<head>`, or the HTML unchanged when it has none |
| PrepareStreams.AssignStreams | pludooprint/models/ir_actions_report_pluto.py:141-142 | `collected_streams[rid]["stream"] = per_body_streams[i]` for each position; no ensures of its own, its effect is stated by AssignStreamsEffect |
| PrepareStreams.AssignStreamsEffect | pludooprint/models/ir_actions_report_pluto.py:141-142 | every listed record receives the stream at its own position; ids and attachments are kept, and every other record is untouched |
| PrepareStreams.PerRecordFallbackUnreachable | pludooprint/models/ir_actions_report_pluto.py:140-154 | the length test at line 140 always holds, so the per-record assignment is returned and the template-id fallback is never reached |
| PrepareStreams.LastIndexOf | pludooprint/models/ir_actions_report_pluto.py:147-148 | the index `rid_to_index` keeps for an id: a position holding it with no later occurrence, since later entries of the comprehension overwrite earlier ones |
| PrepareStreams.AssignByTemplateIdsEffect | pludooprint/models/ir_actions_report_pluto.py:149-150 | each listed record receives the stream at its last template position; ids and attachments are kept, and every other record is untouched |
| PrepareStreams.AssignByTemplateIds | pludooprint/models/ir_actions_report_pluto.py:149-150 | the assignment loop of the fallback; no ensures of its own, its effect is stated by AssignByTemplateIdsEffect |
| PrepareStreams.TemplateIdsFallback | pludooprint/models/ir_actions_report_pluto.py:145-154 | when the template's ids are as many as the streams and name the records lacking one, each such record gets the stream at its last template position and the rest are kept; otherwise one merged entry under `False` with no attachment |
| PrepareStreams.FillMissingStreams | pludooprint/models/ir_actions_report_pluto.py:140-143 | filling the records without stream keeps ids, attachments and stored streams, and gives the record of rank k the k-th engine call |
| PrepareStreams.PerRecordResult | pludooprint/models/ir_actions_report_pluto.py:85-143 | without repeated ids and with a matching template, the result is the collected mapping with the missing streams filled in |
| PrepareStreams.PerRecordStreams | pludooprint/models/ir_actions_report_pluto.py:59-143 | without repeated ids the keys are exactly the ids, in order; attachments and stored streams are kept; the record of rank k among those lacking a stream gets the k-th engine call on the full document |
| PrepareStreams.SingleRecordWithoutAttachment | pludooprint/tests/test_ir_actions_report_pluto.py:164-197 | for record 1 of a report without attachments, the mapping has the single key 1 and its stream is an engine rendering |
| PdfMerge.AllPagesAppend | pludooprint/models/ir_actions_report_pluto.py:201-206 | the pages of two lists of streams together are the pages of the first list, then those of the second |
| PdfMerge.MergedPageCount | pludooprint/models/ir_actions_report_pluto.py:201-206 | the merged document has as many pages as all the streams together |
| PdfMerge.MergeStreams | pludooprint/models/ir_actions_report_pluto.py:200-215 | the merged document holds every page of every stream, stream after stream and in page order |
| PdfMerge.MergeRegroups | pludooprint/models/ir_actions_report_pluto.py:200-215 | merging two merged documents gives the same pages as merging all their streams at once |
| PdfMerge.MergeSingle | pludooprint/models/ir_actions_report_pluto.py:137-138 | the merge of one stream, as used for repeated or empty ids, has exactly that stream's pages |
| PdfMerge.TwoSinglePageStreams | pludooprint/tests/test_ir_actions_report_pluto.py:100-107 | two one-page streams merge into two pages, in order |
| ResourceFetcher.ConfiguredBaseUrl | pludooprint/models/ir_actions_report_pluto.py:239-240 | the base URL is the configured one when it is set, else `http://localhost` |
| ResourceFetcher.NewFetcher | pludooprint/models/ir_actions_report_pluto.py:243-247 | a new fetcher has an empty cache and a 6-second timeout, and its base URL is the given one without its trailing slashes |
| ResourceFetcher.LeadingSlashesIgnored | pludooprint/models/ir_actions_report_pluto.py:250-252 | a relative path resolves to the same URL with or without leading slashes |
| ResourceFetcher.AbsoluteUrlsKept | pludooprint/models/ir_actions_report_pluto.py:250 | `http://`, `https://` and `data:` URLs are used as they are |
| ResourceFetcher.Normalize | pludooprint/models/ir_actions_report_pluto.py:250-252 | the cache key of a URL; no ensures of its own, stated by AbsoluteUrlsKept and LeadingSlashesIgnored |
| ResourceFetcher.SkippedFontIgnoresCase | pludooprint/models/ir_actions_report_pluto.py:258-259 | whether a font URL is skipped does not depend on its letter case |
| ResourceFetcher.RequestFor | pludooprint/models/ir_actions_report_pluto.py:269-278 | the request carries the fetcher's cookie exactly when a cookie is set and the URL is on the base host, or its text contains `/web/content/` anywhere, whatever its host; there is no request when parsing a host raises; it uses the fetcher's timeout |
| ResourceFetcher.MainType | pludooprint/models/ir_actions_report_pluto.py:284-285 | the media type is the text before the first `;` with only its surrounding whitespace removed: it holds no `;` and no whitespace at either end |
| ResourceFetcher.MainTypeDropsParameters | pludooprint/models/ir_actions_report_pluto.py:284-285 | a header `type; parameters` gives `type`, and a bare type gives itself |
| ResourceFetcher.TextEncoding | pludooprint/models/ir_actions_report_pluto.py:286-287 | text-like types get the response's encoding, or `utf-8` when it has none; every other type gets no encoding |
| ResourceFetcher.FromReply | pludooprint/models/ir_actions_report_pluto.py:276-291 | exceptions, 404 and every status `raise_for_status` rejects give the empty octet-stream resource; any other response keeps its content and media type, and carries the reply's encoding (utf-8 by default) exactly when that type is textual |
| ResourceFetcher.FetchUrl | pludooprint/models/ir_actions_report_pluto.py:249-294 | the answer is cached under the resolved URL; a cached URL is answered from the cache without a request; a request goes to the resolved URL and the answer is built from its reply; there is no answer, no request and nothing cached exactly when an exception leaves `fetch_url`: the `data:` decoder raises for a new `data:` URL, or `urlparse` raises on the base URL or a new URL while a cookie is set |
| ResourceFetcher.RequestSentExactly | pludooprint/models/ir_actions_report_pluto.py:254-278 | a request goes out exactly for an uncached URL that is neither a skipped font nor a `data:` URL, and whose host parsing does not raise |
| ResourceFetcher.HostParseFailureEscapes | pludooprint/models/ir_actions_report_pluto.py:269-273 | with a cookie set, a new URL whose host (or the base URL's) cannot be parsed leaves `fetch_url` with an exception: no request, nothing cached |
| ResourceFetcher.CookieForwarding | pludooprint/models/ir_actions_report_pluto.py:269-278 | a sent request carries the session cookie exactly when one is set and the URL is on the base host, or its text contains `/web/content/` anywhere, whatever its host |
| ResourceFetcher.FontsArePlaceholders | pludooprint/models/ir_actions_report_pluto.py:258-262 | uncached `.eot` fonts and font-CDN URLs get the empty `font/woff2` placeholder without a request |
| ResourceFetcher.DataUrlsDecodedLocally | pludooprint/models/ir_actions_report_pluto.py:264-267 | uncached `data:` URLs are answered by the engine's own decoder without a request; when it raises, the exception escapes and nothing is cached |
| ResourceFetcher.FailuresDegrade | pludooprint/models/ir_actions_report_pluto.py:276-291 | a request that raises or ends with an error status yields the empty octet-stream resource |
| ResourceFetcher.FetchIsMemoised | pludooprint/models/ir_actions_report_pluto.py:254-256 | asking for the same URL again returns the same answer, sends nothing and leaves the fetcher unchanged |
| ResourceFetcher.CacheOnlyGrows | pludooprint/models/ir_actions_report_pluto.py:254-294 | a call adds only the resolved URL, with the answer given, and never changes an earlier answer; a decoder exception adds nothing |
| ResourceFetcher.StylesheetResponse | pludooprint/models/ir_actions_report_pluto.py:283-288 | a 200 response typed `text/css; charset=latin-1` gives a `text/css` resource in `latin-1` |
| ResourceFetcher.UntypedResponse | pludooprint/models/ir_actions_report_pluto.py:283-288 | a 200 response without Content-Type gives an `application/octet-stream` resource without encoding |
| ResourceFetcher.TrailingSeparatorDropped | pludooprint/models/ir_actions_report_pluto.py:285-287 | a unit separator after `application/xml` is stripped, so the type stays textual and gets an encoding |

## Left out

- Engine rendering (`_render_with_plutoprint`) is not modelled: loading HTML into a `Book` and writing PDF bytes happen in the native engine, so its output is only named, as `Rendered(k, html, cookie)`.
- `_build_cookie_header_for_assets` is not modelled: it creates a session in the host's session store, so the cookie header is an input.
- `_pre_render_qweb_pdf` and the test-mode bypass are not modelled: they depend on configuration and HTML rendering of the host framework.
- `_get_layout`, `_resolve_paperformat` and `get_wkhtmltopdf_state` are not modelled: they only look up or return host records and constants.
- The conversion of image attachments to PDF (lines 73-78) is not modelled: it is done by an imaging library. A stored attachment's stream is `Stored(attachment)` whatever its type.
- Reading and writing PDF bytes in `_merge_streams` is not modelled: a document is its sequence of pages, and closing the input streams is not modelled.
- `data` handling is not modelled: the `report_type` and `debug` defaults and the `debug` context are inputs of the host's HTML renderer, which is abstract.
- `res_ids=None` is not distinguished from the empty list: both are falsy and take the same branches.
- `specific_args=None` is not distinguished from the empty map: the code replaces it by `{}`.
- URL joining and parsing (`urljoin`, `urlparse(...).netloc`) are parameters rather than implementations of RFC 3986.
- ResourceFetcher.FetchUrl: `urljoin` is total here, so an exception it raises (line 251), which would leave `fetch_url` with nothing cached, is not modelled; exceptions of the `data:` decoder and of `urlparse` (lines 271-272) are.
- The HTTP client and the engine's default `data:` URL decoder are parameters.
- Text encoding is not modelled: CSS text is taken as already UTF-8 encoded, and response content as bytes.
- Text.Lower: only ASCII letters are lowered, whereas Python's `lower()` also lowers other Unicode letters. The only patterns compared with lowered text are ASCII (`.eot`, `fonts.odoocdn.com`).
- Text.Strip: the ASCII characters Python's `strip()` removes (9 to 13 and 28 to 32) are removed, but non-ASCII whitespace such as U+0085 or U+00A0 is not.
- ResourceFetcher.MainType: inherits that gap: a Content-Type header padded with non-ASCII whitespace such as U+00A0 keeps it in the media type, where Python drops it.
- Float fields are carried by their Python `repr`, which is rendered verbatim. No float arithmetic happens in the core.
- PyValues.NatToDecimal: renders integers only; `repr` formatting of floats is not modelled.
