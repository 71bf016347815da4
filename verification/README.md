# DOM scanning of the Playwright page-object generator extension

This project models the part of the browser extension that reads a web page and describes its elements, so that a page-object class can later be generated from that description. The extension scans in three ways:

- **Content script, `scanPageDOM`.** It walks the main document in document order. Each element's open shadow root is scanned right after the element, recursively, and its contents are tagged `"shadow"`. Then the elements of every readable iframe are read and tagged `"iframe-<index>"`.
  - `processElement` keeps an element only when one of ten identifying fields is truthy and its tag is not script, style, meta, link or title.
  - For each kept element it records fifteen fields. These include a four-way visibility test and an ordered list of candidate selectors from `generateSelectors`.
  - The last candidate is always the structural selector from `getCSSSelector`. That selector is either `#id`, or a path of at most six segments joined by " > ". Each segment is `tag[:nth-of-type(k)]`, except that the walk stops at the first ancestor with an id, whose segment is `tag#id`.
  - The report holds the visible records, the count of all records, the page address and the time.
- **Page-context script, `scanAllShadowDOMs`.** It answers a `SCAN_SHADOW_DOMS` message posted by its own window.
  - It walks the document with a tree walker. For each element with an open shadow root, it records the interactive elements of that root, then walks the root itself. Nested roots are therefore reached transitively.
  - Records carry the host's tag name and the context `"shadow"`.
- **Popup, `scanDOM`.** It is injected by the popup. It uses the same walk as the content script, with a different gate: eight of the content script's ten fields (no href, no name) and no tag blacklist, so each scanner records elements the other skips (`Variants.IdentityGates`). It records a single preferred selector per element: id first, then data-testid, aria-label, role, the first class token, and otherwise the tag name.

## Modelling choices

- **The page is a value.** The `Element` datatype holds:
  - the tag name as the DOM reports it;
  - the attribute map;
  - the `className` property, which is a string, or an object for SVG elements;
  - `textContent`;
  - whether an inline click handler is set;
  - the layout box and the computed visibility and display;
  - the element children;
  - the element children of an open shadow root;
  - for an iframe, what reading `contentDocument` gives: null, an exception, or a readable document.
- **Ancestor chains.** `getCSSSelector` walks `parentElement` and `previousElementSibling`. It is modelled on the element's ancestor chain. Each step holds one element's tag, its id and the raw tags of the element siblings before it, nearest first. Both of the source's loops are kept as loops: up the chain, and along the siblings.
- **Traversal.** Document order (`querySelectorAll("*")`, and the tree walker) is the function `Traversal.Walk`. A scan is a sequence of visits, each an element with its context. Each scanner turns visits into records with its own `process` function.
- **Scanner state.** The arrays the scanners push into are fields of `PageScanner`, `ShadowScanner` and `PopupScanner`. Each method that pushes is proved to append exactly the records of a function of the page.
- **Strings.** A string is a sequence of Unicode scalar values, one `char` each. JavaScript's `length` and `substring` count UTF-16 code units instead, so `Strings.Length` counts two units for a character outside the Basic Multilingual Plane. Every length test of the source uses it: the cut of text to 100 units, the limit of 50 on names and texts, and the class-token length. `toLowerCase` is modelled on ASCII letters. `trim` uses ECMAScript's white-space set.
- **Behaviour worth noting:**
  - A `<div class="icon-only">` with nothing else is recorded, because its className is a non-empty string and so passes the gate. Only its class entry is dropped, since the token has a hyphen. See `ContentScript.IconOnlyDivRecorded` and `ContentScript.HyphenatedClassUnused`.
  - The two `li` children of `<ul id="list">` get `ul#list > li` and `ul#list > li:nth-of-type(2)`. The id ancestor is rendered as `tag#id`, and `:nth-of-type(k)` is added only when k > 1. See `CssPath.FirstListItemExample` and `CssPath.SecondListItemExample`.

## Model

The main rows come first. Rows marked "Proof step:" are one-step unfoldings used by the other proofs, and rows marked "Example:" check the model on concrete pages. Both groups are at the end.

| member | source | states |
|---|---|---|
| Dom.RecordedText | src/extension/content-script.ts:27 | the recorded text has at most 100 UTF-16 code units, is a prefix of the trimmed text, is all of it when the trimmed text fits in 100 units, and is empty exactly when the trimmed text is empty |
| Strings.TrimmedAlready | src/extension/content-script.ts:27 | a string that neither starts nor ends with white space is left unchanged by `trim` |
| Strings.TrimIsSlice | src/extension/content-script.ts:27 | `trim` removes only white space, at both ends; what is left is one contiguous slice that neither starts nor ends with white space |
| Strings.TrimEnds | src/extension/content-script.ts:27 | a non-empty trimmed string neither starts nor ends with white space |
| Strings.TrimEmptyIffWhite | src/extension/content-script.ts:43-44 | trimmed text is empty, and so falsy for the gate, exactly when the text is white space only |
| Strings.Length | src/extension/content-script.ts:90 | `length` counts UTF-16 code units: at least one and at most two per character, and none only for the empty string |
| Strings.LengthAstral | src/extension/content-script.ts:118 | a string of characters outside the Basic Multilingual Plane has two code units per character |
| Strings.Substring | src/extension/content-script.ts:27 | `substring(0, n)` gives a prefix of at most n code units, all of the string when it fits, and otherwise one the next character would overflow |
| Strings.SubstringLength | src/extension/content-script.ts:27 | a cut string keeps exactly n code units, or n - 1 when a surrogate pair straddles the cut |
| Strings.SplitJoin | src/extension/content-script.ts:124 | `split(" ")` loses nothing: joining its parts with " " gives the className back |
| Strings.FilterHead | src/extension/content-script.ts:124-127 | a filtered token list is empty exactly when no token passes, and otherwise starts with the first token that passes |
| Strings.DecimalRoundTrip | src/extension/content-script.ts:164 | the rendering of a position or index is all digits and reads back as the same number |
| Strings.SplitToken | src/extension/popup.tsx:294 | a string without spaces splits into itself alone |
| Strings.SplitLeadingSpace | src/extension/popup.tsx:294 | a leading space splits off an empty token |
| Traversal.Walk | src/extension/content-script.ts:202 | document order lists every element with an ancestor chain that starts at that element, and lists the first tree's root first |
| Traversal.ContextLabelInjective | src/extension/content-script.ts:186-192 | the labels "main", "shadow" and "iframe-i" are pairwise distinct, and different iframe indexes give different labels |
| Traversal.ScanIsWalkOrder | src/extension/content-script.ts:177-184 | handling each element of `querySelectorAll("*")` and then scanning its shadow root is the depth-first scan in which shadow content directly follows its host |
| Traversal.ScanTreesContexts | src/extension/content-script.ts:177-184 | every visit of a scan carries the scan's own context or "shadow" |
| Traversal.ShadowVisitsContexts | src/extension/content-script.ts:177-184 | everything under a shadow root is visited as "shadow" |
| Traversal.ShadowContentVisited | src/extension/content-script.ts:177-184 | every element of an open shadow root is visited as "shadow", and so is the content of its own shadow root |
| Traversal.NestedShadowVisited | src/extension/content-script.ts:177-184 | the shadow content of any element met inside a shadow root is part of that root's scan |
| Traversal.MainShadowVisited | src/extension/content-script.ts:200-205 | the shadow content of every element the main scan meets is part of the main scan |
| Traversal.MainElementVisited | src/extension/content-script.ts:200-205 | every element of the main document's tree is visited as "main", and its shadow content is part of the page scan |
| Traversal.VisitsOverOrigin | src/extension/content-script.ts:202-205 | every visit of the main loop is one of its elements or lies under the shadow root of one of them |
| Traversal.FramesIn | src/extension/content-script.ts:187 | `querySelectorAll("iframe")` yields every iframe element of the walked elements and nothing else, at most one per element |
| Traversal.MainIframeListed | src/extension/content-script.ts:186-187 | every iframe of the main document's tree has an index among the document's iframes |
| Traversal.Tagged | src/extension/content-script.ts:190-192 | an iframe's elements are visited in document order, each with that iframe's context |
| Traversal.FrameVisitOrigin | src/extension/content-script.ts:186-199 | every iframe visit belongs to a readable iframe at its index, and lies in that iframe document's own tree; its shadow roots are not entered |
| Traversal.FrameElementVisited | src/extension/content-script.ts:189-192 | every element of a readable iframe is visited with that iframe's index |
| Traversal.UnreadableFrameSkipped | src/extension/content-script.ts:188-197 | an iframe whose document is null or throws contributes no visit |
| Traversal.PageVisitContexts | src/extension/content-script.ts:200-208 | every visit of the page scan is "main", "shadow", or the index of a readable iframe |
| CssPath.CountTag | src/extension/content-script.ts:156-160 | the sibling count never exceeds the number of siblings |
| CssPath.CountTagOccurrences | src/extension/content-script.ts:156-160 | the count is the number of occurrences of the tag name among the earlier siblings: one more sibling adds one exactly when its raw tag name is the element's |
| CssPath.PathSegments | src/extension/content-script.ts:142-172 | defines the path walk: no segment once the budget or the chain is exhausted, `tag#id` and stop at an ancestor with an id, and otherwise the ancestor's plain segment after the path of its parent; its properties are those of PathSegmentsLength, PathSegmentsAt and PathSegmentsStop |
| CssPath.CssSelector | src/extension/content-script.ts:137-175 | defines the structural selector: `#id` for an element with an id, and otherwise the path segments joined by " > "; GetCssSelector is proved to compute it |
| CssPath.SiblingPosition | src/extension/content-script.ts:154-161 | the inner loop returns 1 plus the number of preceding siblings with the same raw tag name |
| CssPath.PlainSegmentOf | src/extension/content-script.ts:146-165 | the segment of an ancestor without an id is its lower-cased tag, followed by `:nth-of-type(k)` exactly when k > 1 |
| CssPath.GetCssSelector | src/extension/content-script.ts:137-175 | the nested loops compute the structural selector of the chain; an element with an id gets exactly `#id` |
| CssPath.IdSelector | src/extension/content-script.ts:138-140 | an element with an id is selected by `#id` alone |
| CssPath.PathSegmentsLength | src/extension/content-script.ts:142-172 | the path has at least one segment and at most six, and never more than the chain has elements |
| CssPath.PathSegmentsAt | src/extension/content-script.ts:145-168 | read from the element end, segment i belongs to the i-th element of the chain, and every element before the last one reached has no id |
| CssPath.PathSegmentsStop | src/extension/content-script.ts:148-152 | a walk that stops short of both the limit and the top of the tree stops at an element with an id |
| CssPath.TwoStepSelector | src/extension/content-script.ts:142-174 | an element without an id whose parent has one gets `tag#id > segment` |
| ContentSelectors.LeadingSelectors | src/extension/content-script.ts:76-100 | the first four steps push the data-testid, id, role and aria-label entries, in that order |
| ContentSelectors.PushRoleSelector | src/extension/content-script.ts:86-95 | a non-empty role adds one entry: the role paired with the aria-label, or else the trimmed text, when that name is non-empty and shorter than 50 UTF-16 code units, and the bare role otherwise |
| ContentSelectors.PushInputSelectors | src/extension/content-script.ts:103-113 | only `input` elements get the name, type and placeholder entries, in that order |
| ContentSelectors.PushTextSelector | src/extension/content-script.ts:116-120 | the text step appends exactly the text entry |
| ContentSelectors.PushClassSelector | src/extension/content-script.ts:123-129 | the class step appends exactly the class entry |
| ContentSelectors.AttributeEntries | src/extension/content-script.ts:76-129 | defines the attribute-derived entries as the nine steps' entries in source order; AttributeEntriesOrdered and EntryPresence state their order and presence |
| ContentSelectors.Selectors | src/extension/content-script.ts:73-135 | the list is never empty, ends with the structural selector, and everything before it is the attribute-derived entries |
| ContentSelectors.GenerateSelectors | src/extension/content-script.ts:73-135 | the list is the attribute-derived entries followed by the structural selector, so it is never empty and ends with that selector |
| ContentSelectors.AttributeEntriesOrdered | src/extension/content-script.ts:76-129 | the attribute-derived entries come in the fixed order data-testid, id, role, aria-label, input name, type and placeholder, text, class; there are at most nine |
| ContentSelectors.EntryPresence | src/extension/content-script.ts:76-129 | each kind of entry is present exactly when its attribute or text condition holds; an SVG className gives no class entry |
| ContentSelectors.InputAttrEntryKind | src/extension/content-script.ts:104-112 | each input attribute adds at most one entry, of its own kind, exactly when the attribute is non-empty |
| ContentSelectors.InputEntryPresence | src/extension/content-script.ts:103-113 | the input entries are present exactly for `input` elements with the attribute non-empty |
| ContentSelectors.RoleSelector | src/extension/content-script.ts:87-95 | the role entry pairs the role with the aria-label, or else with the trimmed text, when that name is non-empty and shorter than 50 UTF-16 code units; otherwise it is the role alone |
| ContentSelectors.ClassEntryFirstStable | src/extension/content-script.ts:123-129 | the class entry is "." plus the first token of `split(" ")` that is longer than three UTF-16 code units and has no hyphen, and it is absent when no token qualifies |
| ContentSelectors.ClassEntryLast | src/extension/content-script.ts:122-129 | the class entry, when present, is the last attribute-derived entry |
| ContentSelectors.IdSelectorTwice | src/extension/content-script.ts:82-84 | nothing is de-duplicated: an element with an id gets `#id` from the id step and again as the fallback |
| Dom.IsVisible | src/extension/content-script.ts:38-40 | defines visibility as a positive width and height, a visibility other than "hidden" and a display other than "none" |
| ContentScript.HasIdentity | src/extension/content-script.ts:43-46 | defines the identity gate: one of the ten fields is truthy, the className counting when it is a non-empty string or an object |
| ContentScript.Blacklisted | src/extension/content-script.ts:49-52 | defines the tag blacklist: script, style, meta, link and title |
| ContentScript.MakeRecord | src/extension/content-script.ts:54-70 | the pushed record carries the context label, text of at most 100 UTF-16 code units that is a prefix of the trimmed text, and selectors ending with the structural one |
| ContentScript.PageScanner.constructor | src/extension/content-script.ts:19 | the scan starts with no records |
| ContentScript.PageScanner.ProcessElement | src/extension/content-script.ts:21-71 | appends the element's record exactly when it passes both gates, and nothing otherwise |
| ContentScript.PageScanner.ScanShadowDOM | src/extension/content-script.ts:177-184 | appends the records of the whole shadow scan of the element, nested roots included |
| ContentScript.PageScanner.ScanFrameDocument | src/extension/content-script.ts:190-192 | appends the records of a readable iframe's elements, in document order, each tagged with the iframe's index |
| ContentScript.PageScanner.ScanFrame | src/extension/content-script.ts:187-198 | one iframe adds its document's records when the document can be read, and nothing when it is missing or cross-origin |
| ContentScript.PageScanner.ScanIframes | src/extension/content-script.ts:186-199 | appends the records of every readable iframe, in iframe order |
| ContentScript.ScanPageDOM | src/extension/content-script.ts:18-216 | returns the report of the page: visible records, total count, address and time |
| ContentScript.VisibleOnly | src/extension/content-script.ts:211 | keeps exactly the visible records, and never more than there were |
| ContentScript.VisibleOnlyAppend | src/extension/content-script.ts:211 | the filter keeps the records' order |
| ContentScript.Report | src/extension/content-script.ts:210-215 | `totalElements` counts all records before the filter, and `elements` holds exactly the visible ones |
| ContentScript.ReportContents | src/extension/content-script.ts:210-215 | the visible records keep their scan order, and every reported element is visible |
| ContentScript.RecordFields | src/extension/content-script.ts:24-70 | a record has a non-blacklisted tag, trimmed text of at most 100 UTF-16 code units, an identifying field, the four-way visibility test, and selectors ending in the structural one (`#id` for an id) |
| ContentScript.RecordOrigin | src/extension/content-script.ts:43-52 | every record was made from a visit of an element that passes both gates |
| ContentScript.ReportedElementRecorded | src/extension/content-script.ts:43-70 | every visit of an element that passes both gates yields its record |
| ContentScript.PageRecordsWellFormed | src/extension/content-script.ts:24-70 | every record has a non-blacklisted tag, at most 100 UTF-16 code units of text, a selector, and a context "main", "shadow" or "iframe-i" of a readable iframe |
| ContentScript.ShadowElementRecorded | src/extension/content-script.ts:177-184 | elements in shadow roots, nested roots included, are recorded with context "shadow" |
| ContentScript.IframeElementRecorded | src/extension/content-script.ts:186-192 | elements of a readable iframe i are recorded with context "iframe-i" |
| ContentScript.ReadableIframeRecorded | src/extension/content-script.ts:186-192 | a reported element of a readable iframe anywhere in the main document's tree is recorded, under that iframe's index among the document's iframes |
| ContentScript.UnreadableIframeNotRecorded | src/extension/content-script.ts:188-197 | no record carries the context of an unreadable iframe |
| InjectedScript.IsInteractive | src/extension/injected-script.ts:45-56 | an element is interactive exactly when it has an interactive tag, a role, data-testid, aria-label or tabindex attribute, or a click handler; the `role="button"` test adds nothing |
| InjectedScript.CreateElementData | src/extension/injected-script.ts:58-86 | the record carries the given context, text of at most 100 UTF-16 code units that is a prefix of the trimmed text, and a null host exactly when the host's tag name is empty |
| InjectedScript.HostName | src/extension/injected-script.ts:84 | the host is given by its tag name as the DOM gives it, and is null when that is empty |
| InjectedScript.InteractiveRecords | src/extension/injected-script.ts:33-37 | one shadow root yields at most one record per element |
| InjectedScript.InteractiveRecordsOrigin | src/extension/injected-script.ts:33-37 | each record of a shadow root comes from an interactive element of that root |
| InjectedScript.InteractiveRecordsComplete | src/extension/injected-script.ts:33-37 | each interactive element of a shadow root yields its record |
| InjectedScript.ScanForestIsWalkOrder | src/extension/injected-script.ts:21-43 | the tree-walker loop and the recursive description of the scan agree |
| InjectedScript.ShadowScanner.constructor | src/extension/injected-script.ts:19 | the scan starts with no records |
| InjectedScript.ShadowScanner.PushIfInteractive | src/extension/injected-script.ts:34-36 | pushes the element's record exactly when it is interactive, and nothing otherwise |
| InjectedScript.ShadowScanner.PushInteractive | src/extension/injected-script.ts:33-37 | the `forEach` appends exactly the records of the root's interactive elements, in document order |
| InjectedScript.ShadowScanner.FindAndScanShadowRoots | src/extension/injected-script.ts:21-43 | the walker loop with its recursive call appends exactly the scan of the root |
| InjectedScript.ShadowScanner.ScanHost | src/extension/injected-script.ts:31-41 | one walker step appends, for an element with a shadow root, the records of that root's interactive elements followed by the scan of its nested roots, and nothing otherwise |
| InjectedScript.ScanAllShadowDOMs | src/extension/injected-script.ts:18-90 | returns the scan of the document |
| InjectedScript.HostScanOrigin | src/extension/injected-script.ts:31-41 | what a host's scan yields comes from its own root or from the root of an element met while scanning it |
| InjectedScript.HostScanCovered | src/extension/injected-script.ts:39-41 | the scan of an element met inside a shadow root is part of its host's scan |
| InjectedScript.VisitedHostScanned | src/extension/injected-script.ts:21-43 | every element reachable from the document through any number of shadow roots has its shadow root scanned |
| InjectedScript.ShadowRecordComplete | src/extension/injected-script.ts:21-43 | every interactive element of the shadow root of a reachable host is reported, with that host's tag name |
| InjectedScript.ShadowRecordOrigin | src/extension/injected-script.ts:21-43 | every record is that of an interactive element inside a shadow root of a reachable host, never a main-document element, and the page scan visits it as "shadow" too |
| InjectedScript.ShadowRecordFields | src/extension/injected-script.ts:58-86 | every record has context "shadow", a lower-cased tag name, the host's tag name as given, trimmed text of at most 100 UTF-16 code units, and the four-way visibility test |
| InjectedScript.NoShadowRootsNoRecords | src/extension/injected-script.ts:31 | a page without open shadow roots yields no records |
| InjectedScript.Respond | src/extension/injected-script.ts:6-15 | a reply is posted exactly for a `SCAN_SHADOW_DOMS` message from the window itself, and it has type `SHADOW_DOM_RESULTS` |
| InjectedScript.HandleMessage | src/extension/injected-script.ts:6-15 | the listener replies as `Respond` says, carrying the document's scan |
| InjectedScript.OwnMessagesIgnored | src/extension/injected-script.ts:9-14 | the script's own reply and ready messages trigger no scan |
| Popup.Identified | src/extension/popup.tsx:253-255 | defines the popup's gate: one of the eight fields is truthy |
| Popup.Candidates | src/extension/popup.tsx:274-298 | defines the candidates as the id, data-testid, aria-label, role and first-class entries in push order; CandidatesNonEmpty and SelectorPriority state their properties |
| Popup.PreferredSelector | src/extension/popup.tsx:300 | defines the result as the first candidate, or the lower-cased tag when there is none; SelectorPriority states the resulting priority |
| Popup.GenerateSelector | src/extension/popup.tsx:272-301 | the method returns the preferred selector |
| Popup.PushFirstClass | src/extension/popup.tsx:292-298 | the class step appends "." plus the first non-empty token of a string className, and nothing when the className is an object, empty or all spaces |
| Popup.CandidatesNonEmpty | src/extension/popup.tsx:300 | every candidate is non-empty, so the tag name is used exactly when there is no candidate |
| Popup.SelectorPriority | src/extension/popup.tsx:272-301 | the selector is `#id` when there is an id, else the data-testid, aria-label or role entry, else the first class token, else the lower-cased tag |
| Popup.FirstClassToken | src/extension/popup.tsx:293-297 | the class candidate is "." plus the first non-empty token of `split(" ")`, with no length or hyphen filter, and that token holds no space |
| Popup.NoClassToken | src/extension/popup.tsx:293-297 | a string className gives no class candidate exactly when it holds nothing but spaces |
| Popup.AllTokensEmpty | src/extension/popup.tsx:293-297 | tokens without spaces joined by " " give a string of spaces only exactly when every token is empty |
| Popup.PopupScanner.constructor | src/extension/popup.tsx:237 | the scan starts with no records |
| Popup.PopupScanner.ProcessElement | src/extension/popup.tsx:239-270 | appends the element's record exactly when one of the eight fields is truthy |
| Popup.PopupScanner.ScanShadowDOM | src/extension/popup.tsx:303-310 | appends the records of the whole shadow scan of the element |
| Popup.PopupScanner.ScanFrameDocument | src/extension/popup.tsx:316-318 | appends the records of a readable iframe's elements, in document order, each tagged with the iframe's index |
| Popup.PopupScanner.ScanFrame | src/extension/popup.tsx:313-324 | one iframe adds its document's records when the document can be read, and nothing when it is missing or cross-origin |
| Popup.PopupScanner.ScanIframes | src/extension/popup.tsx:312-325 | appends the records of every readable iframe, in iframe order |
| Popup.ScanDOM | src/extension/popup.tsx:236-337 | returns every gated record of the page scan, with no visibility filter |
| Popup.PopupRecordOrigin | src/extension/popup.tsx:252-255 | every record comes from a visit of an element that passes the eight-field gate |
| Popup.PopupElementRecorded | src/extension/popup.tsx:252-269 | every visit of such an element yields its record, whatever its tag |
| Popup.PopupRecordsWellFormed | src/extension/popup.tsx:239-270 | every record has at most 100 UTF-16 code units of text, a "main", "shadow" or readable "iframe-i" context, an identifying field (unless the className is an SVG object), and `#id` as its selector when it has an id |
| Variants.IdentityGates | src/extension/popup.tsx:252-255 | the content script's gate is the popup's with href and name added |
| Variants.BothScansRecord | src/extension/popup.tsx:327-334 | an element both gates admit is recorded by both page scans, with the same context |
| Variants.PreferredSelectorListed | src/extension/popup.tsx:276-286 | an id, data-testid or aria-label the popup prefers is also one of the content script's candidates |
| Variants.IdAndTestIdRankedApart | src/extension/popup.tsx:276-282 | for an element with an id and a data-testid, the popup keeps `#id` while the content script lists the data-testid first |
| Variants.ShadowRecordsAgree | src/extension/injected-script.ts:58-86 | the content script and the shadow scan describe a shadow element alike: tag, id, text, attributes, context, visibility and position |
| Variants.ShadowScanWithinPageScan | src/extension/injected-script.ts:21-43 | every element the shadow scan reports is visited as "shadow" by the page scan, and is in its records when it passes the content script's gates |
| Strings.LengthAppend | src/extension/content-script.ts:90 | Proof step: code-unit lengths add up over concatenation |
| Strings.FilterEmpty | src/extension/content-script.ts:124-126 | Proof step: a filtered token list is empty exactly when no token passes the filter |
| Strings.FilterFirst | src/extension/content-script.ts:124-127 | Proof step: a non-empty filtered list starts with the first token that passes |
| Traversal.FramesInAppend | src/extension/content-script.ts:187 | Proof step: the iframes of two parts of document order are those of the first part followed by those of the second, so the list follows document order |
| CssPath.PathSegmentsIdStep | src/extension/content-script.ts:148-152 | Proof step: the walk stops at the first ancestor with an id, whose `tag#id` segment is its last |
| CssPath.PathSegmentsPlainStep | src/extension/content-script.ts:163-168 | Proof step: from an ancestor without an id the walk adds its segment in front and moves to the parent with one segment less to spend |
| ContentSelectors.InputGroupOnly | src/extension/content-script.ts:76-129 | Proof step: entries of the input kinds come from the input step and from no other step |
| ContentSelectors.InputEntriesHasKind | src/extension/content-script.ts:103-113 | Proof step: the input step yields the entry of an attribute exactly for an `input` whose attribute is non-empty |
| ContentScript.SingleVisibleReport | src/extension/content-script.ts:210-215 | Proof step: a page whose only record is visible reports that record with a count of one |
| ContentScript.SingleCollect | src/extension/content-script.ts:43-74 | Proof step: one visit yields its record exactly when the element passes both gates, and nothing otherwise |
| ContentScript.SingleTokenClassEntry | src/extension/content-script.ts:123-129 | Proof step: a className that is one token with no space gives "." plus that token when the token is stable, and no class entry otherwise |
| ContentScript.BareEntries | src/extension/content-script.ts:76-129 | Proof step: an element with no attributes and no text gets no attribute-derived selector except, possibly, its class entry |
| Popup.TokenSpaces | src/extension/popup.tsx:294-295 | Proof step: a token without spaces is all spaces exactly when it is empty |
| Popup.OnlySpacesJoin | src/extension/popup.tsx:294 | Proof step: `a + " " + b` is all spaces exactly when both parts are |
| Popup.NoTokenCons | src/extension/popup.tsx:295 | Proof step: no token of a list passes `length > 0` exactly when the first is empty and none of the rest passes |
| Popup.PopupSingleCollect | src/extension/popup.tsx:253-269 | Proof step: one visit yields its record exactly when one of the eight fields is truthy, and nothing otherwise |
| Traversal.LoneElementVisits | src/extension/content-script.ts:200-208 | Example: a page made of one childless, non-iframe element without shadow root is visited once, as "main" |
| CssPath.ListSegment | src/extension/content-script.ts:146-151 | Example: the ancestor `<ul id="list">` gets the segment `ul#list` |
| CssPath.FirstOfTypeSegment | src/extension/content-script.ts:154-165 | Example: a first `li` among its siblings gets the bare segment `li` |
| CssPath.SecondOfTypeSegment | src/extension/content-script.ts:163-165 | Example: a second `li` among its siblings gets the segment `li:nth-of-type(2)` |
| CssPath.FirstListItemExample | src/extension/content-script.ts:137-175 | Example: the first `li` of `<ul id="list">` gets `ul#list > li` |
| CssPath.SecondListItemExample | src/extension/content-script.ts:137-175 | Example: the second `li` of `<ul id="list">` gets `ul#list > li:nth-of-type(2)` |
| ContentSelectors.AstralTextNotUsed | src/extension/content-script.ts:116-120 | Example: a button whose trimmed text is 25 characters outside the Basic Multilingual Plane, 50 code units long, gets no text entry |
| ContentSelectors.BlankTextSelector | src/extension/content-script.ts:116-120 | Example: a button or link whose text is white space only gets `tag:has-text("")` |
| ContentSelectors.GoButtonTextEntry | src/extension/content-script.ts:116-120 | Example: `<button>Go</button>` gets the text entry `button:has-text("Go")` |
| ContentSelectors.SubmitAttributeEntries | src/extension/content-script.ts:76-100 | Example: an element whose attributes are `id="submit"` and `data-testid="submit-btn"` gets the data-testid and id entries and no role or aria-label entry |
| ContentSelectors.SubmitButtonSelectors | src/extension/content-script.ts:73-135 | Example: a button with id, data-testid and short text gets exactly the testid, id, has-text and id entries, in that order |
| ContentScript.SubmitButtonGates | src/extension/content-script.ts:43-51 | Example: a `<button id="submit" data-testid="submit-btn">` passes the identity gate and is not blacklisted |
| ContentScript.LoneReport | src/extension/content-script.ts:210-215 | Example: a page of one visible element that passes the gates reports exactly its record and a count of one |
| ContentScript.LonePageRecords | src/extension/content-script.ts:200-212 | Example: a one-element page that passes the gates yields exactly that element's record |
| ContentScript.IconOnlyGates | src/extension/content-script.ts:43-46 | Example: a div with only `class="icon-only"` passes the identity gate through its className |
| ContentScript.IconOnlyEntries | src/extension/content-script.ts:76-129 | Example: such a div with no text gets no attribute-derived selector |
| ContentScript.IconOnlyDivRecorded | src/extension/content-script.ts:43-46 | Example: a div with only `class="icon-only"` is recorded, and its only selector is the structural one |
| ContentScript.HyphenatedClassUnused | src/extension/content-script.ts:123-128 | Example: the class "icon-only" gives no class entry |
| Popup.IdBeatsTestIdExample | src/extension/popup.tsx:276-281 | Example: an element with both an id and a data-testid is selected by its id |
| Popup.LeadingSpacesClassEntry | src/extension/popup.tsx:293-297 | Example: `class="  btn"` gives the class candidate `.btn`, the empty tokens being skipped |
| Popup.LeadingSpacesClassExample | src/extension/popup.tsx:293-297 | Example: `class="  btn"` gives `.btn` |
| Variants.ScriptOnlyInPopup | src/extension/content-script.ts:49-52 | Example: a script element with a data-testid is recorded by the popup and not by the content script |
| Variants.BareLinkOnlyInContentScript | src/extension/content-script.ts:43-44 | Example: a link with only an href is recorded by the content script and not by the popup |
| Variants.EmptyButtonOnlyInShadowScan | src/extension/injected-script.ts:45-56 | Example: an empty button is interactive but passes neither of the other gates |

## Left out

- The `chrome.runtime.onMessage` listener around `scanPageDOM`, and the injection of the page-context script on load. These are messaging and script loading, not scanning.
- The popup's React interface, its storage of the API key, the call to the OpenAI API and the code download. These are UI and network I/O.
- `console` logging, and the `INJECTED_SCRIPT_READY` signal. The signal is only a message that the listener ignores.
- `window.location.href` and `Date.now()`. They are parameters of `ContentScript.ScanPageDOM`.
- The `nodeType` checks. Every node the scans reach is an element, so those checks never fail.
- `textContent` and layout. `textContent` is an input per element and is not computed from text nodes. The layout box uses whole pixels, and x and y are copied through unexamined.
- Closed shadow roots. They read as null, exactly like an element without a shadow root.
- A message whose `data` is null. The source would throw on it; the model reads its type as absent.
- Case folding. `toLowerCase` is modelled for ASCII letters only.
- A null `textContent`. It is modelled as the empty string, which is what the optional chaining makes falsy.
- Dom.RecordedText: `substring(0, 100)` can cut a surrogate pair in two and keep its high half as the hundredth code unit. A string here holds whole characters, so the cut drops that character and keeps 99 code units (`Strings.SubstringLength`). The records of `ContentScript.MakeRecord`, `InjectedScript.CreateElementData` and `Popup.MakePopupRecord` inherit this. Strings holding a lone surrogate are not modelled at all.
- Selector escaping. Attribute values are pasted into selectors unescaped, as in the source. Whether the selectors parse as CSS is not modelled.
