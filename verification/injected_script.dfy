/**
 * The script injected into the page context.  On a `SCAN_SHADOW_DOMS`
 * message from its own window it walks the document, and for every element
 * with an open shadow root records the interactive elements of that root and
 * then walks the root itself, so nested shadow roots are reached
 * transitively.  Only elements inside shadow roots are ever recorded.
 */
module InjectedScript {
  import opened Optional
  import opened Strings
  import opened Dom
  import opened Traversal

  /**
   * `isInteractiveElement`: an interactive tag, a role, data-testid or
   * aria-label attribute (present, even if empty), `role="button"`, a
   * tabindex attribute, or an inline click handler.  The `role="button"`
   * test adds nothing, since any role attribute already qualifies.
   */
  predicate IsInteractive(e: Element): (r: bool)
    ensures r <==>
      (var tag := Lower(e.tag);
       tag == "button" || tag == "input" || tag == "select" || tag == "textarea" || tag == "a" || tag == "form"
       || "role" in e.attrs || "data-testid" in e.attrs || "aria-label" in e.attrs
       || "tabindex" in e.attrs || e.onclick)
  {
    var tag := Lower(e.tag);
    tag == "button" || tag == "input" || tag == "select" || tag == "textarea" || tag == "a" || tag == "form"
    || "role" in e.attrs || "data-testid" in e.attrs || "aria-label" in e.attrs
    || Attr(e, "role") == Some("button")
    || Attr(e, "tabindex") != None
    || e.onclick
  }

  /** The object `createElementData` builds. */
  datatype ShadowRecord = ShadowRecord(
    tagName: string,
    id: string,
    className: ClassName,
    textContent: string,
    role: Option<string>,
    ariaLabel: Option<string>,
    dataTestId: Option<string>,
    placeholder: Option<string>,
    typeAttr: Option<string>,
    href: Option<string>,
    name: Option<string>,
    context: string,
    isVisible: bool,
    position: Rect,
    shadowHost: Option<string>)

  /** `host?.tagName || null`: the host's tag name as the DOM gives it, or null when that is empty. */
  function HostName(hostTag: string): (r: Option<string>)
    ensures r.Some? <==> hostTag != ""
    ensures r.Some? ==> r.value == hostTag
  {
    if hostTag == "" then None else Some(hostTag)
  }

  /** `createElementData(element, context)` for an element of the shadow root of an element tagged `hostTag`. */
  function CreateElementData(e: Element, context: string, hostTag: string): (r: ShadowRecord)
    ensures r.context == context
    ensures Length(r.textContent) <= MaxTextLength && |r.textContent| <= |Trim(e.text)|
    ensures r.textContent == Trim(e.text)[..|r.textContent|]
    ensures r.shadowHost == None <==> hostTag == ""
  {
    ShadowRecord(
      Lower(e.tag), Id(e), e.className, RecordedText(e),
      Attr(e, "role"), Attr(e, "aria-label"), Attr(e, "data-testid"),
      Attr(e, "placeholder"), Attr(e, "type"), Attr(e, "href"), Attr(e, "name"),
      context, IsVisible(e), e.rect, HostName(hostTag))
  }

  /** What the `forEach` callback pushes for one element of a shadow root. */
  function InteractiveRecord(e: Element, hostTag: string): seq<ShadowRecord> {
    if IsInteractive(e) then [CreateElementData(e, "shadow", hostTag)] else []
  }

  /** The records the `forEach` over one shadow root's `querySelectorAll('*')` pushes. */
  function InteractiveRecords(locs: seq<Located>, hostTag: string): (rs: seq<ShadowRecord>)
    ensures |rs| <= |locs|
  {
    if locs == [] then [] else InteractiveRecord(locs[0].el, hostTag) + InteractiveRecords(locs[1..], hostTag)
  }

  /** Each record of one shadow root comes from an interactive element of that root. */
  lemma {:induction false} InteractiveRecordsOrigin(locs: seq<Located>, hostTag: string, r: ShadowRecord)
    requires r in InteractiveRecords(locs, hostTag)
    ensures exists l :: l in locs && IsInteractive(l.el) && r == CreateElementData(l.el, "shadow", hostTag)
  {
    if !(IsInteractive(locs[0].el) && r == CreateElementData(locs[0].el, "shadow", hostTag)) {
      InteractiveRecordsOrigin(locs[1..], hostTag, r);
      var l :| l in locs[1..] && IsInteractive(l.el) && r == CreateElementData(l.el, "shadow", hostTag);
      assert l in locs;
    }
  }

  /** Each interactive element of a shadow root yields its record. */
  lemma {:induction false} InteractiveRecordsComplete(locs: seq<Located>, hostTag: string, l: Located)
    requires l in locs && IsInteractive(l.el)
    ensures CreateElementData(l.el, "shadow", hostTag) in InteractiveRecords(locs, hostTag)
  {
    if locs[0] != l {
      InteractiveRecordsComplete(locs[1..], hostTag, l);
    }
  }

  /**
   * `findAndScanShadowRoots(root)` over the forest of `root`'s children:
   * in document order, each element with an open shadow root contributes
   * the interactive elements of that root and then the scan of the root.
   */
  function ScanForest(f: seq<Element>): seq<ShadowRecord>
    decreases SizeF(f), 1
  {
    if f == [] then []
    else HostScan(f[0]) + ScanForest(f[0].children) + ScanForest(f[1..])
  }

  /** What one element met by the walker contributes. */
  function HostScan(e: Element): seq<ShadowRecord>
    decreases Size(e), 0
  {
    match e.shadowRoot
    case NoShadowRoot => []
    case ShadowRoot(nodes) => InteractiveRecords(Walk(nodes, [], []), e.tag) + ScanForest(nodes)
  }

  /** The walker loop over a list of nodes. */
  function HostsOver(locs: seq<Located>): seq<ShadowRecord>
  {
    if locs == [] then [] else HostScan(locs[0].el) + HostsOver(locs[1..])
  }

  lemma {:induction false} HostsOverAppend(a: seq<Located>, b: seq<Located>)
    ensures HostsOver(a + b) == HostsOver(a) + HostsOver(b)
  {
    if a == [] {
      assert a + b == b;
    } else {
      var rest := (a + b)[1..];
      assert (a + b)[0] == a[0] && rest == a[1..] + b;
      assert HostsOver(a + b) == HostScan(a[0].el) + HostsOver(rest);
      HostsOverAppend(a[1..], b);
      AppendTwo(HostScan(a[0].el), HostsOver(a[1..]), HostsOver(b));
    }
  }

  /** The recursive description and the walker loop over document order agree. */
  lemma {:induction false} ScanForestIsWalkOrder(f: seq<Element>, up: seq<Step>, before: seq<string>)
    ensures ScanForest(f) == HostsOver(Walk(f, up, before))
    decreases f
  {
    if f != [] {
      var t := f[0];
      var step := Step(t.tag, Id(t), before);
      var head := [Located(t, [step] + up)];
      var kids := Walk(t.children, [step] + up, []);
      var rest := Walk(f[1..], up, [t.tag] + before);
      ScanForestIsWalkOrder(t.children, [step] + up, []);
      ScanForestIsWalkOrder(f[1..], up, [t.tag] + before);
      HostsOverAppend(head + kids, rest);
      HostsOverAppend(head, kids);
      assert HostsOver(head) == HostScan(t) by {
        assert head[1..] == [];
      }
      assert Walk(f, up, before) == head + kids + rest;
    }
  }

  lemma InteractiveRecordsStep(locs: seq<Located>, j: nat, hostTag: string)
    requires j < |locs|
    ensures InteractiveRecords(locs[..j + 1], hostTag)
            == InteractiveRecords(locs[..j], hostTag) + InteractiveRecord(locs[j].el, hostTag)
  {
    assert locs[..j + 1] == locs[..j] + [locs[j]];
    InteractiveRecordsAppend(locs[..j], [locs[j]], hostTag);
    assert [locs[j]][1..] == [];
  }

  lemma {:induction false} InteractiveRecordsAppend(a: seq<Located>, b: seq<Located>, hostTag: string)
    ensures InteractiveRecords(a + b, hostTag) == InteractiveRecords(a, hostTag) + InteractiveRecords(b, hostTag)
  {
    if a == [] {
      assert a + b == b;
    } else {
      var head := InteractiveRecord(a[0].el, hostTag);
      assert (a + b)[0] == a[0];
      assert (a + b)[1..] == a[1..] + b;
      InteractiveRecordsAppend(a[1..], b, hostTag);
      AppendTwo(head, InteractiveRecords(a[1..], hostTag), InteractiveRecords(b, hostTag));
    }
  }

  lemma HostsOverStep(locs: seq<Located>, i: nat)
    requires i < |locs|
    ensures HostsOver(locs[..i + 1]) == HostsOver(locs[..i]) + HostScan(locs[i].el)
  {
    assert locs[..i + 1] == locs[..i] + [locs[i]];
    HostsOverAppend(locs[..i], [locs[i]]);
    assert [locs[i]][1..] == [];
  }

  lemma {:induction false} HostsOverContains(locs: seq<Located>, l: Located, r: ShadowRecord)
    requires l in locs && r in HostScan(l.el)
    ensures r in HostsOver(locs)
  {
    if locs[0] != l {
      HostsOverContains(locs[1..], l, r);
    }
  }

  lemma {:induction false} HostsOverOrigin(locs: seq<Located>, r: ShadowRecord)
    requires r in HostsOver(locs)
    ensures exists l :: l in locs && r in HostScan(l.el)
  {
    if r !in HostScan(locs[0].el) {
      HostsOverOrigin(locs[1..], r);
      var l :| l in locs[1..] && r in HostScan(l.el);
      assert l in locs;
    }
  }

  /** `r` is the record of an interactive element of `host`'s own shadow root. */
  predicate RootRecord(host: Element, r: ShadowRecord) {
    host.shadowRoot.ShadowRoot? && r in InteractiveRecords(Walk(host.shadowRoot.nodes, [], []), host.tag)
  }

  /**
   * What the scan of one host yields comes from its own shadow root or from
   * the shadow root of an element met while scanning it.
   */
  lemma {:induction false} HostScanOrigin(e: Element, r: ShadowRecord)
    requires r in HostScan(e)
    ensures RootRecord(e, r) || exists hv :: hv in ShadowVisits(e) && RootRecord(hv.loc.el, r)
    decreases Size(e)
  {
    if !RootRecord(e, r) {
      var nodes := e.shadowRoot.nodes;
      var locs := Walk(nodes, [], []);
      assert r in ScanForest(nodes);
      ScanForestIsWalkOrder(nodes, [], []);
      HostsOverOrigin(locs, r);
      var l :| l in locs && r in HostScan(l.el);
      ScanIsWalkOrder(nodes, [], [], Shadow);
      VisitsOverContains(locs, Shadow, l);
      HostScanOrigin(l.el, r);
      if !RootRecord(l.el, r) {
        var hv :| hv in ShadowVisits(l.el) && RootRecord(hv.loc.el, r);
        assert hv in ShadowVisits(e);
      } else {
        assert Visit(l, Shadow) in ShadowVisits(e);
      }
    }
  }

  /** The scan of an element met inside a shadow root is part of the scan of that root's host. */
  lemma {:induction false} HostScanCovered(e: Element, hv: Visit)
    requires hv in ShadowVisits(e)
    ensures forall r :: r in HostScan(hv.loc.el) ==> r in HostScan(e)
    decreases Size(e)
  {
    var nodes := e.shadowRoot.nodes;
    var locs := Walk(nodes, [], []);
    ScanIsWalkOrder(nodes, [], [], Shadow);
    VisitsOverOrigin(locs, Shadow, hv);
    var l :| l in locs && (hv == Visit(l, Shadow) || hv in ShadowVisits(l.el));
    if hv != Visit(l, Shadow) {
      HostScanCovered(l.el, hv);
    }
    ScanForestIsWalkOrder(nodes, [], []);
    forall r | r in HostScan(l.el)
      ensures r in HostScan(e)
    {
      HostsOverContains(locs, l, r);
    }
  }

  /**
   * Every element the main-document scan meets, inside shadow roots
   * included, has its shadow root scanned by the injected script.
   */
  lemma VisitedHostScanned(doc: seq<Element>, hv: Visit)
    requires hv in ScanTrees(doc, [], [], Main)
    ensures forall r :: r in HostScan(hv.loc.el) ==> r in ScanForest(doc)
  {
    var locs := Walk(doc, [], []);
    ScanIsWalkOrder(doc, [], [], Main);
    VisitsOverOrigin(locs, Main, hv);
    var l :| l in locs && (hv == Visit(l, Main) || hv in ShadowVisits(l.el));
    if hv != Visit(l, Main) {
      HostScanCovered(l.el, hv);
    }
    ScanForestIsWalkOrder(doc, [], []);
    forall r | r in HostScan(l.el)
      ensures r in ScanForest(doc)
    {
      HostsOverContains(locs, l, r);
    }
  }

  /**
   * Each interactive element of the shadow root of any element reachable
   * from the document (through any number of shadow roots) is reported,
   * with the host's tag name.
   */
  lemma ShadowRecordComplete(doc: seq<Element>, hv: Visit, l: Located)
    requires hv in ScanTrees(doc, [], [], Main) && hv.loc.el.shadowRoot.ShadowRoot?
    requires l in Walk(hv.loc.el.shadowRoot.nodes, [], []) && IsInteractive(l.el)
    ensures CreateElementData(l.el, "shadow", hv.loc.el.tag) in ScanForest(doc)
  {
    InteractiveRecordsComplete(Walk(hv.loc.el.shadowRoot.nodes, [], []), hv.loc.el.tag, l);
    VisitedHostScanned(doc, hv);
  }

  /**
   * Each reported element is an interactive element of the shadow root of a
   * reachable host, recorded with that host's tag name; the content
   * script's page scan visits it as "shadow" too.
   */
  lemma ShadowRecordOrigin(doc: seq<Element>, r: ShadowRecord)
    requires r in ScanForest(doc)
    ensures exists hv, l ::
              hv in ScanTrees(doc, [], [], Main) && hv.loc.el.shadowRoot.ShadowRoot?
              && l in Walk(hv.loc.el.shadowRoot.nodes, [], []) && IsInteractive(l.el)
              && Visit(l, Shadow) in ScanTrees(doc, [], [], Main)
              && r == CreateElementData(l.el, "shadow", hv.loc.el.tag)
  {
    var locs := Walk(doc, [], []);
    ScanForestIsWalkOrder(doc, [], []);
    HostsOverOrigin(locs, r);
    var l0 :| l0 in locs && r in HostScan(l0.el);
    HostScanOrigin(l0.el, r);
    ScanIsWalkOrder(doc, [], [], Main);
    VisitsOverContains(locs, Main, l0);
    var hv: Visit;
    if RootRecord(l0.el, r) {
      hv := Visit(l0, Main);
    } else {
      hv :| hv in ShadowVisits(l0.el) && RootRecord(hv.loc.el, r);
    }
    var all := Walk(hv.loc.el.shadowRoot.nodes, [], []);
    InteractiveRecordsOrigin(all, hv.loc.el.tag, r);
    var l :| l in all && IsInteractive(l.el) && r == CreateElementData(l.el, "shadow", hv.loc.el.tag);
    ShadowContentVisited(hv.loc.el, l);
    MainShadowVisited(doc, hv);
  }

  /**
   * Every record is tagged "shadow"; its tag name is the element's, lower
   * cased, its host is the host's tag name as the DOM gives it, its text is
   * trimmed and at most 100 code units, and its visibility is the four-way
   * test.
   */
  lemma ShadowRecordFields(doc: seq<Element>, r: ShadowRecord)
    requires r in ScanForest(doc)
    ensures r.context == "shadow" && Length(r.textContent) <= MaxTextLength
    ensures exists host: Element, l: Located ::
              host.shadowRoot.ShadowRoot? && l in Walk(host.shadowRoot.nodes, [], [])
              && r.tagName == Lower(l.el.tag) && r.shadowHost == HostName(host.tag)
              && r.textContent == RecordedText(l.el) && r.isVisible == IsVisible(l.el)
  {
    ShadowRecordOrigin(doc, r);
  }

  /** A page without open shadow roots yields no records. */
  lemma NoShadowRootsNoRecords(doc: seq<Element>)
    requires forall l :: l in Walk(doc, [], []) ==> l.el.shadowRoot == NoShadowRoot
    ensures ScanForest(doc) == []
  {
    if ScanForest(doc) != [] {
      ShadowRecordOrigin(doc, ScanForest(doc)[0]);
      var hv :| hv in ScanTrees(doc, [], [], Main) && hv.loc.el.shadowRoot.ShadowRoot?;
      var locs := Walk(doc, [], []);
      ScanIsWalkOrder(doc, [], [], Main);
      VisitsOverOrigin(locs, Main, hv);
    }
  }

  /** The `shadowElements` array of one `scanAllShadowDOMs` call. */
  class ShadowScanner {
    var shadowElements: seq<ShadowRecord>

    constructor()
      ensures shadowElements == []
    {
      shadowElements := [];
    }

    /** The callback of that `forEach`: pushes the element's record when it is interactive. */
    method PushIfInteractive(e: Element, hostTag: string)
      modifies this
      ensures shadowElements == old(shadowElements) + InteractiveRecord(e, hostTag)
    {
      if IsInteractive(e) {
        shadowElements := shadowElements + [CreateElementData(e, "shadow", hostTag)];
      } else {
        assert shadowElements == shadowElements + [];
      }
    }

    /** The `forEach` over `shadowRoot.querySelectorAll('*')`: pushes the record of each interactive element. */
    method PushInteractive(all: seq<Located>, hostTag: string)
      modifies this
      ensures shadowElements == old(shadowElements) + InteractiveRecords(all, hostTag)
    {
      var j := 0;
      while j < |all|
        invariant 0 <= j <= |all|
        invariant shadowElements == old(shadowElements) + InteractiveRecords(all[..j], hostTag)
      {
        PushIfInteractive(all[j].el, hostTag);
        InteractiveRecordsStep(all, j, hostTag);
        AppendTwo(old(shadowElements), InteractiveRecords(all[..j], hostTag), InteractiveRecord(all[j].el, hostTag));
        j := j + 1;
      }
      assert all[..|all|] == all;
    }

    /** The body of the walker loop: an element with a shadow root has it scanned, then searched for nested roots. */
    method ScanHost(element: Element)
      modifies this
      ensures shadowElements == old(shadowElements) + HostScan(element)
      decreases Size(element), 0
    {
      if element.shadowRoot.ShadowRoot? {
        var all := Walk(element.shadowRoot.nodes, [], []);
        PushInteractive(all, element.tag);
        FindAndScanShadowRoots(element.shadowRoot.nodes);
        AppendTwo(old(shadowElements), InteractiveRecords(all, element.tag), ScanForest(element.shadowRoot.nodes));
      } else {
        assert shadowElements == old(shadowElements) + [];
      }
    }

    /** `findAndScanShadowRoots(root)`, with the root given as the forest of its children. */
    method FindAndScanShadowRoots(root: seq<Element>)
      modifies this
      ensures shadowElements == old(shadowElements) + ScanForest(root)
      decreases SizeF(root), 1
    {
      var walker := Walk(root, [], []);
      var i := 0;
      while i < |walker|
        invariant 0 <= i <= |walker|
        invariant shadowElements == old(shadowElements) + HostsOver(walker[..i])
      {
        var element := walker[i].el;
        assert walker[i] in walker;
        ScanHost(element);
        HostsOverStep(walker, i);
        AppendTwo(old(shadowElements), HostsOver(walker[..i]), HostScan(element));
        i := i + 1;
      }
      assert walker[..|walker|] == walker;
      ScanForestIsWalkOrder(root, [], []);
    }
  }

  /** `scanAllShadowDOMs()`: the scan that starts at the document. */
  method ScanAllShadowDOMs(doc: seq<Element>) returns (elements: seq<ShadowRecord>)
    ensures elements == ScanForest(doc)
  {
    var scanner := new ShadowScanner();
    scanner.FindAndScanShadowRoots(doc);
    elements := scanner.shadowElements;
  }

  /** A `message` event: whether its source is the window itself, and `event.data.type`. */
  datatype MessageEvent = MessageEvent(fromWindow: bool, dataType: Option<string>)

  /** The message posted back. */
  datatype Reply = Reply(replyType: string, elements: seq<ShadowRecord>)

  /** The `message` listener: the reply it posts, if any. */
  function Respond(ev: MessageEvent, doc: seq<Element>): (reply: Option<Reply>)
    ensures reply.Some? <==> ev.fromWindow && ev.dataType == Some("SCAN_SHADOW_DOMS")
    ensures reply.Some? ==> reply.value.replyType == "SHADOW_DOM_RESULTS"
  {
    if !ev.fromWindow then None
    else if ev.dataType == Some("SCAN_SHADOW_DOMS") then Some(Reply("SHADOW_DOM_RESULTS", ScanForest(doc)))
    else None
  }

  /** The listener as it runs: the scan is made only when a reply is due. */
  method HandleMessage(ev: MessageEvent, doc: seq<Element>) returns (reply: Option<Reply>)
    ensures reply == Respond(ev, doc)
    ensures reply.Some? ==> reply.value.elements == ScanForest(doc)
  {
    if !ev.fromWindow {
      return None;
    }
    if ev.dataType == Some("SCAN_SHADOW_DOMS") {
      var shadowElements := ScanAllShadowDOMs(doc);
      reply := Some(Reply("SHADOW_DOM_RESULTS", shadowElements));
    } else {
      reply := None;
    }
  }

  /** The script's own messages, its reply and its ready signal, do not trigger a scan. */
  lemma OwnMessagesIgnored(doc: seq<Element>)
    ensures Respond(MessageEvent(true, Some("SHADOW_DOM_RESULTS")), doc) == None
    ensures Respond(MessageEvent(true, Some("INJECTED_SCRIPT_READY")), doc) == None
  {
  }
}
