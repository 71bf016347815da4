/**
 * `scanPageDOM` of the content script: every element of the page, its
 * shadow roots and its readable iframes is handed to `processElement`,
 * which keeps an element only when one of ten identifying fields is set and
 * its tag is not one of script, style, meta, link and title, and records its
 * fields, its visibility and its candidate selectors.  The report holds the
 * visible records, the number of all records, the page address and the time.
 */
module ContentScript {
  import opened Optional
  import opened Strings
  import opened Dom
  import opened Traversal
  import opened CssPath
  import opened ContentSelectors

  /**
   * The first gate of `processElement`: at least one of id, className,
   * role, aria-label, data-testid, placeholder, type, the recorded text,
   * href and name is truthy.
   */
  predicate HasIdentity(e: Element) {
    Id(e) != "" || ClassTruthy(e.className) || Truthy(Attr(e, "role"))
    || Truthy(Attr(e, "aria-label")) || Truthy(Attr(e, "data-testid"))
    || Truthy(Attr(e, "placeholder")) || Truthy(Attr(e, "type"))
    || RecordedText(e) != "" || Truthy(Attr(e, "href")) || Truthy(Attr(e, "name"))
  }

  /** The second gate: lower-cased tag names that are never recorded. */
  predicate Blacklisted(tagName: string) {
    tagName == "script" || tagName == "style" || tagName == "meta"
    || tagName == "link" || tagName == "title"
  }

  predicate Reported(e: Element) {
    HasIdentity(e) && !Blacklisted(Lower(e.tag))
  }

  /** The object `processElement` pushes. */
  datatype PageRecord = PageRecord(
    tagName: string,
    id: string,
    className: string,
    textContent: string,
    role: Option<string>,
    ariaLabel: Option<string>,
    dataTestId: Option<string>,
    placeholder: Option<string>,
    typeAttr: Option<string>,
    href: Option<string>,
    name: Option<string>,
    context: string,
    isVisible: bool,
    position: Rect,
    selectors: seq<string>)

  /** The record `processElement` pushes for a located element in a context. */
  function MakeRecord(l: Located, ctx: Context): (r: PageRecord)
    ensures r.context == ContextLabel(ctx)
    ensures Length(r.textContent) <= MaxTextLength && |r.textContent| <= |Trim(l.el.text)|
    ensures r.textContent == Trim(l.el.text)[..|r.textContent|]
    ensures |r.selectors| >= 1 && r.selectors[|r.selectors| - 1] == CssSelector(l.path)
    ensures r.isVisible == IsVisible(l.el)
  {
    var e := l.el;
    PageRecord(
      Lower(e.tag), Id(e), ClassString(e.className), RecordedText(e),
      Attr(e, "role"), Attr(e, "aria-label"), Attr(e, "data-testid"),
      Attr(e, "placeholder"), Attr(e, "type"), Attr(e, "href"), Attr(e, "name"),
      ContextLabel(ctx), IsVisible(e), e.rect, Selectors(e, l.path))
  }

  /** What `processElement(element, context)` pushes for a visit, if anything. */
  function Process(v: Visit): Option<PageRecord> {
    if Reported(v.loc.el) then Some(MakeRecord(v.loc, v.context)) else None
  }

  /** The records of a whole page, in the order they are pushed. */
  function ScanRecords(doc: seq<Element>): seq<PageRecord> {
    Collect(PageVisits(doc), Process)
  }

  /** `elements.filter(el => el.isVisible)`. */
  function VisibleOnly(rs: seq<PageRecord>): (vs: seq<PageRecord>)
    ensures |vs| <= |rs|
    ensures forall r :: r in vs <==> r in rs && r.isVisible
  {
    if rs == [] then [] else (if rs[0].isVisible then [rs[0]] else []) + VisibleOnly(rs[1..])
  }

  /** Filtering keeps the order: it distributes over concatenation. */
  lemma {:induction false} VisibleOnlyAppend(a: seq<PageRecord>, b: seq<PageRecord>)
    ensures VisibleOnly(a + b) == VisibleOnly(a) + VisibleOnly(b)
  {
    if a == [] {
      assert a + b == b;
    } else {
      assert (a + b)[0] == a[0];
      assert (a + b)[1..] == a[1..] + b;
      VisibleOnlyAppend(a[1..], b);
      AppendTwo(if a[0].isVisible then [a[0]] else [], VisibleOnly(a[1..]), VisibleOnly(b));
    }
  }

  /** The value `scanPageDOM` returns; the address and the clock are inputs. */
  datatype PageReport = PageReport(elements: seq<PageRecord>, totalElements: nat, url: string, timestamp: int)

  function Report(doc: seq<Element>, url: string, now: int): (r: PageReport)
    ensures r.totalElements == |ScanRecords(doc)| && |r.elements| <= r.totalElements
    ensures forall x :: x in r.elements <==> x in ScanRecords(doc) && x.isVisible
  {
    var records := ScanRecords(doc);
    PageReport(VisibleOnly(records), |records|, url, now)
  }

  /** The shared `elements` array of one `scanPageDOM` call, with the helpers that fill it. */
  class PageScanner {
    var elements: seq<PageRecord>

    constructor()
      ensures elements == []
    {
      elements := [];
    }

    /** `processElement(element, context)`. */
    method ProcessElement(l: Located, ctx: Context)
      modifies this
      ensures elements == old(elements) + Collect([Visit(l, ctx)], Process)
    {
      var e := l.el;
      SingleCollect(Visit(l, ctx));
      var tagName := Lower(e.tag);
      var id := Id(e);
      var className := e.className;
      var textContent := RecordedText(e);
      var role := Attr(e, "role");
      var ariaLabel := Attr(e, "aria-label");
      var dataTestId := Attr(e, "data-testid");
      var placeholder := Attr(e, "placeholder");
      var typeAttr := Attr(e, "type");
      var href := Attr(e, "href");
      var name := Attr(e, "name");
      var isVisible := e.rect.width > 0 && e.rect.height > 0
                       && e.style.visibility != "hidden" && e.style.display != "none";
      if !HasIdentity(e) {
        return;
      }
      if Blacklisted(tagName) {
        return;
      }
      var selectors := GenerateSelectors(e, l.path);
      var record := PageRecord(
        tagName, id, ClassString(className), textContent, role, ariaLabel, dataTestId,
        placeholder, typeAttr, href, name, ContextLabel(ctx), isVisible, e.rect, selectors);
      assert record == MakeRecord(l, ctx);
      elements := elements + [record];
    }

    /** `scanShadowDOM(element)`: every element of the open shadow root, each followed by its own shadow root. */
    method ScanShadowDOM(e: Element)
      modifies this
      ensures elements == old(elements) + Collect(ShadowVisits(e), Process)
      decreases Size(e)
    {
      if e.shadowRoot.ShadowRoot? {
        var all := Walk(e.shadowRoot.nodes, [], []);
        var i := 0;
        while i < |all|
          invariant 0 <= i <= |all|
          invariant elements == old(elements) + Collect(VisitsOver(all[..i], Shadow), Process)
        {
          assert all[i] in all;
          ProcessElement(all[i], Shadow);
          ScanShadowDOM(all[i].el);
          CollectLoopStep(all, i, Shadow, Process);
          AppendThree(old(elements), Collect(VisitsOver(all[..i], Shadow), Process),
                      Collect([Visit(all[i], Shadow)], Process), Collect(ShadowVisits(all[i].el), Process));
          i := i + 1;
        }
        assert all[..|all|] == all;
        ScanIsWalkOrder(e.shadowRoot.nodes, [], [], Shadow);
      }
    }

    /** The body of `scanIframes()` for one readable iframe: every element of its document, tagged with the iframe's index. */
    method ScanFrameDocument(d: seq<Element>, index: nat)
      modifies this
      ensures elements == old(elements) + Collect(Tagged(Walk(d, [], []), Iframe(index)), Process)
    {
      var all := Walk(d, [], []);
      var j := 0;
      while j < |all|
        invariant 0 <= j <= |all|
        invariant elements == old(elements) + Collect(Tagged(all[..j], Iframe(index)), Process)
      {
        ProcessElement(all[j], Iframe(index));
        CollectTaggedStep(all, j, Iframe(index), Process);
        AppendTwo(old(elements), Collect(Tagged(all[..j], Iframe(index)), Process),
                  Collect([Visit(all[j], Iframe(index))], Process));
        j := j + 1;
      }
      assert all[..|all|] == all;
    }

    /** The callback of `scanIframes()` for one iframe: its document's elements when it can be read, nothing otherwise. */
    method ScanFrame(frame: Element, index: nat)
      modifies this
      ensures elements == old(elements) + Collect(FrameDocVisits(frame, index), Process)
    {
      match frame.content {
        case SameOrigin(d) =>
          ScanFrameDocument(d, index);
        case NoDocument =>
          assert elements == old(elements) + [];
        case CrossOrigin =>
          assert elements == old(elements) + [];
      }
    }

    /** `scanIframes()`: the elements of every readable iframe document; unreadable ones are skipped. */
    method ScanIframes(doc: seq<Element>)
      modifies this
      ensures elements == old(elements) + Collect(FrameVisits(Iframes(doc)), Process)
    {
      var frames := Iframes(doc);
      var index := 0;
      while index < |frames|
        invariant 0 <= index <= |frames|
        invariant elements == old(elements) + Collect(FrameVisits(frames[..index]), Process)
      {
        ghost var done := Collect(FrameVisits(frames[..index]), Process);
        ScanFrame(frames[index], index);
        CollectFrameStep(frames, index, Process);
        AppendTwo(old(elements), done, Collect(FrameDocVisits(frames[index], index), Process));
        index := index + 1;
      }
      assert frames[..|frames|] == frames;
    }
  }

  /** `scanPageDOM()`, given the page address and the clock reading. */
  method ScanPageDOM(doc: seq<Element>, url: string, now: int) returns (report: PageReport)
    ensures report == Report(doc, url, now)
  {
    var scanner := new PageScanner();
    var all := Walk(doc, [], []);
    var i := 0;
    while i < |all|
      invariant 0 <= i <= |all|
      invariant scanner.elements == Collect(VisitsOver(all[..i], Main), Process)
    {
      scanner.ProcessElement(all[i], Main);
      scanner.ScanShadowDOM(all[i].el);
      CollectLoopStep(all, i, Main, Process);
      i := i + 1;
    }
    assert all[..|all|] == all;
    ScanIsWalkOrder(doc, [], [], Main);
    scanner.ScanIframes(doc);
    CollectAppend(ScanTrees(doc, [], [], Main), FrameVisits(Iframes(doc)), Process);
    var records := scanner.elements;
    report := PageReport(VisibleOnly(records), |records|, url, now);
  }

  /** At least one identifying field of a record is set. */
  predicate RecordIdentity(r: PageRecord) {
    r.id != "" || r.className != "" || Truthy(r.role) || Truthy(r.ariaLabel) || Truthy(r.dataTestId)
    || Truthy(r.placeholder) || Truthy(r.typeAttr) || r.textContent != "" || Truthy(r.href) || Truthy(r.name)
  }

  /**
   * What a record made for a reported element holds: a tag outside the
   * blacklist, a trimmed text of at most 100 code units, an identifying field
   * (unless the element's className is an SVG object, which is truthy but
   * recorded as ""), the four-way visibility test, and a selector list that
   * ends with the structural selector, `#id` for an element with an id.
   */
  lemma RecordFields(l: Located, ctx: Context)
    requires Reported(l.el) && Anchored(l)
    ensures var r := MakeRecord(l, ctx);
            !Blacklisted(r.tagName)
            && Length(r.textContent) <= MaxTextLength && r.textContent == Trim(l.el.text)[..|r.textContent|]
            && (RecordIdentity(r) || l.el.className.ClassObject?)
            && (r.isVisible <==> (l.el.rect.width > 0 && l.el.rect.height > 0
                                 && l.el.style.visibility != "hidden" && l.el.style.display != "none"))
            && |r.selectors| >= 1 && r.selectors[|r.selectors| - 1] == CssSelector(l.path)
            && (Id(l.el) != "" ==> r.selectors[|r.selectors| - 1] == "#" + Id(l.el))
  {
    if Id(l.el) != "" {
      IdSelector(l.path);
    }
  }

  /** Every record of a page was made from a visit of a reported element. */
  lemma RecordOrigin(doc: seq<Element>, r: PageRecord)
    requires r in ScanRecords(doc)
    ensures exists v :: v in PageVisits(doc) && Reported(v.loc.el) && r == MakeRecord(v.loc, v.context)
  {
    CollectOrigin(PageVisits(doc), Process, r);
  }

  /** Every visit of a reported element yields its record. */
  lemma ReportedElementRecorded(doc: seq<Element>, v: Visit)
    requires v in PageVisits(doc) && Reported(v.loc.el)
    ensures MakeRecord(v.loc, v.context) in ScanRecords(doc)
  {
    CollectComplete(PageVisits(doc), Process, v);
  }

  /**
   * Every record of a page has a tag outside the blacklist, a text of at
   * most 100 code units, at least one selector, and the context "main",
   * "shadow", or "iframe-i" for a readable iframe i of the main document.
   */
  lemma PageRecordsWellFormed(doc: seq<Element>, r: PageRecord)
    requires r in ScanRecords(doc)
    ensures !Blacklisted(r.tagName) && Length(r.textContent) <= MaxTextLength && |r.selectors| >= 1
    ensures r.context == "main" || r.context == "shadow"
            || exists i :: 0 <= i < |Iframes(doc)| && Iframes(doc)[i].content.SameOrigin?
                           && r.context == "iframe-" + Decimal(i)
  {
    RecordOrigin(doc, r);
    var v :| v in PageVisits(doc) && Reported(v.loc.el) && r == MakeRecord(v.loc, v.context);
    assert r.context == ContextLabel(v.context);
    PageVisitContexts(doc, v);
    if v.context.Iframe? {
      var i := v.context.index;
      IframeLabel(i);
      assert v.context == Iframe(i);
    }
  }

  /**
   * Shadow content is recorded transitively: a reported element of the
   * open shadow root of a main-document element is recorded with context
   * "shadow", and so is every reported element nested further down.
   */
  lemma ShadowElementRecorded(doc: seq<Element>, l: Located, m: Located)
    requires l in Walk(doc, [], []) && l.el.shadowRoot.ShadowRoot?
    requires m in Walk(l.el.shadowRoot.nodes, [], []) && Reported(m.el)
    ensures MakeRecord(m, Shadow) in ScanRecords(doc) && MakeRecord(m, Shadow).context == "shadow"
    ensures forall v :: v in ShadowVisits(m.el) && Reported(v.loc.el) ==>
              MakeRecord(v.loc, v.context) in ScanRecords(doc) && v.context == Shadow
  {
    MainElementVisited(doc, l);
    ShadowContentVisited(l.el, m);
    ReportedElementRecorded(doc, Visit(m, Shadow));
    ShadowVisitsContexts(m.el);
    forall v | v in ShadowVisits(m.el) && Reported(v.loc.el)
      ensures MakeRecord(v.loc, v.context) in ScanRecords(doc)
    {
      ReportedElementRecorded(doc, v);
    }
  }

  /** A reported element of a readable iframe's document is recorded with that iframe's index. */
  lemma IframeElementRecorded(doc: seq<Element>, i: nat, l: Located)
    requires i < |Iframes(doc)| && Iframes(doc)[i].content.SameOrigin?
    requires l in Walk(Iframes(doc)[i].content.doc, [], []) && Reported(l.el)
    ensures MakeRecord(l, Iframe(i)) in ScanRecords(doc)
    ensures MakeRecord(l, Iframe(i)).context == "iframe-" + Decimal(i)
  {
    FrameElementVisited(Iframes(doc), i, l);
    ReportedElementRecorded(doc, Visit(l, Iframe(i)));
    assert MakeRecord(l, Iframe(i)).context == ContextLabel(Iframe(i));
    IframeLabel(i);
  }

  /**
   * A reported element of a readable iframe anywhere in the main document's
   * tree is recorded, under that iframe's index among the document's iframes.
   */
  lemma ReadableIframeRecorded(doc: seq<Element>, frame: Located, l: Located)
    requires frame in Walk(doc, [], []) && Lower(frame.el.tag) == "iframe" && frame.el.content.SameOrigin?
    requires l in Walk(frame.el.content.doc, [], []) && Reported(l.el)
    ensures exists i :: 0 <= i < |Iframes(doc)| && Iframes(doc)[i] == frame.el
                        && MakeRecord(l, Iframe(i)) in ScanRecords(doc)
  {
    MainIframeListed(doc, frame);
    var i :| 0 <= i < |Iframes(doc)| && Iframes(doc)[i] == frame.el;
    IframeElementRecorded(doc, i, l);
  }

  /** An iframe whose document is missing or cross-origin contributes no record. */
  lemma UnreadableIframeNotRecorded(doc: seq<Element>, i: nat, r: PageRecord)
    requires i < |Iframes(doc)| && !Iframes(doc)[i].content.SameOrigin?
    requires r in ScanRecords(doc)
    ensures r.context != "iframe-" + Decimal(i)
  {
    RecordOrigin(doc, r);
    var v :| v in PageVisits(doc) && Reported(v.loc.el) && r == MakeRecord(v.loc, v.context);
    assert r.context == ContextLabel(v.context);
    PageVisitContexts(doc, v);
    IframeLabel(i);
    ContextLabelInjective(v.context, Iframe(i));
  }

  /**
   * The report lists exactly the visible records, in the order they were
   * pushed, and counts all of them.
   */
  lemma ReportContents(doc: seq<Element>, url: string, now: int, a: seq<PageRecord>, b: seq<PageRecord>)
    requires ScanRecords(doc) == a + b
    ensures Report(doc, url, now).elements == VisibleOnly(a) + VisibleOnly(b)
    ensures Report(doc, url, now).totalElements == |a| + |b|
    ensures forall r :: r in Report(doc, url, now).elements ==> r.isVisible
  {
    VisibleOnlyAppend(a, b);
  }

  /** A `<button id="submit" data-testid="submit-btn">` passes both gates of `processElement`. */
  lemma SubmitButtonGates(btn: Element)
    requires btn.tag == "BUTTON" && btn.attrs == map["id" := "submit", "data-testid" := "submit-btn"]
    ensures Lower(btn.tag) == "button" && Id(btn) == "submit" && Reported(btn)
  {
    assert Lower(btn.tag) == "button";
    assert Id(btn) == "submit";
  }

  /** A page made of one reported element, with no children, no shadow root and no iframe, has one record. */
  lemma LonePageRecords(e: Element)
    requires e.children == [] && e.shadowRoot == NoShadowRoot && Lower(e.tag) != "iframe"
    requires Reported(e)
    ensures ScanRecords([e]) == [MakeRecord(Located(e, [Step(e.tag, Id(e), [])]), Main)]
  {
    var loc := Located(e, [Step(e.tag, Id(e), [])]);
    var v := Visit(loc, Main);
    LoneElementVisits(e);
    SingleCollect(v);
  }

  /** The report of such a page lists that one record when the element is visible, and counts it. */
  lemma LoneReport(e: Element, url: string, now: int)
    requires e.children == [] && e.shadowRoot == NoShadowRoot && Lower(e.tag) != "iframe"
    requires Reported(e) && IsVisible(e)
    ensures Report([e], url, now) == PageReport([MakeRecord(Located(e, [Step(e.tag, Id(e), [])]), Main)], 1, url, now)
  {
    var loc := Located(e, [Step(e.tag, Id(e), [])]);
    LonePageRecords(e);
    SingleVisibleReport([e], MakeRecord(loc, Main), url, now);
  }

  /** A page whose only record is visible reports that record and a count of one. */
  lemma SingleVisibleReport(doc: seq<Element>, r: PageRecord, url: string, now: int)
    requires ScanRecords(doc) == [r] && r.isVisible
    ensures Report(doc, url, now) == PageReport([r], 1, url, now)
  {
    assert [r][1..] == [];
  }

  /** One visit yields its record exactly when the element passes both gates. */
  lemma SingleCollect(v: Visit)
    ensures Collect([v], Process) == if Reported(v.loc.el) then [MakeRecord(v.loc, v.context)] else []
  {
    assert [v][1..] == [];
  }

  /** A `<div class="icon-only">` with no attributes passes the gates: its className is a non-empty string. */
  lemma IconOnlyGates(e: Element)
    requires e.tag == "DIV" && e.attrs == map[] && e.className == ClassText("icon-only")
    ensures Lower(e.tag) == "div" && Reported(e)
  {
    assert ClassTruthy(e.className);
    assert Lower(e.tag) == "div";
  }

  /** Such a div, with no text, has no attribute-derived selector. */
  lemma IconOnlyEntries(e: Element)
    requires e.tag == "DIV" && e.attrs == map[] && e.className == ClassText("icon-only") && e.text == ""
    ensures AttributeEntries(e) == []
  {
    HyphenatedClassUnused(e);
    BareEntries(e);
  }

  /** Without attributes and text, only the class can give an attribute-derived selector. */
  lemma BareEntries(e: Element)
    requires e.attrs == map[] && e.text == ""
    ensures AttributeEntries(e) == ClassEntry(e)
  {
    assert TestIdEntry(e) == [] && IdEntry(e) == [] && RoleEntry(e) == [] && AriaLabelEntry(e) == [];
    assert InputEntries(e) == [] by {
      assert InputAttrEntry(e, "name") == [] && InputAttrEntry(e, "type") == [];
      assert InputAttrEntry(e, "placeholder") == [];
    }
  }

  /**
   * A `<div class="icon-only">` with no attributes and no text is recorded:
   * its className is a truthy string.  Its only class token contains a
   * hyphen, so the record's only selector is the structural one.
   */
  lemma IconOnlyDivRecorded(l: Located, ctx: Context)
    requires l.el.tag == "DIV" && l.el.attrs == map[] && l.el.className == ClassText("icon-only") && l.el.text == ""
    ensures Process(Visit(l, ctx)).Some?
    ensures MakeRecord(l, ctx).selectors == [CssSelector(l.path)]
  {
    IconOnlyGates(l.el);
    IconOnlyEntries(l.el);
    assert Selectors(l.el, l.path) == [] + [CssSelector(l.path)];
  }

  /** A class name that is one token with no space yields at most that token as its class entry. */
  lemma SingleTokenClassEntry(e: Element, s: string)
    requires e.className == ClassText(s) && s != [] && ' ' !in s
    ensures ClassEntry(e) == (if StableClass(s) then ["." + s] else [])
  {
    SplitToken(s);
    assert Filter([s], StableClass) == (if StableClass(s) then [s] else []) by {
      assert [s][1..] == [];
    }
  }

  /** The single token "icon-only" contains a hyphen, so it yields no class entry. */
  lemma HyphenatedClassUnused(e: Element)
    requires e.className == ClassText("icon-only")
    ensures ClassEntry(e) == []
  {
    var s := e.className.text;
    assert s[4] == '-' && s != [];
    assert ' ' !in s;
    SingleTokenClassEntry(e, s);
  }
}
