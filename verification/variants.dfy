/**
 * How the three scanners relate on the same page: the content script's
 * `scanPageDOM`, the popup's injected `scanDOM` and the page-context
 * shadow scan.  They share one walk and one visibility test, but their
 * gates, recorded fields and selectors differ.
 */
module Variants {
  import opened Optional
  import opened Strings
  import opened Dom
  import opened Traversal
  import opened CssPath
  import opened ContentSelectors
  import opened ContentScript
  import opened InjectedScript
  import opened Popup

  /**
   * The content script's identity gate is the popup's with href and name
   * added: every element the popup's gate admits passes it, and the only
   * extra elements are those identified by href or name alone.
   */
  lemma IdentityGates(e: Element)
    ensures HasIdentity(e) <==> Identified(e) || Truthy(Attr(e, "href")) || Truthy(Attr(e, "name"))
  {
  }

  /** A `<script data-testid="boot">` is recorded by the popup only: the content script blacklists it. */
  lemma ScriptOnlyInPopup(e: Element)
    requires e.tag == "SCRIPT" && e.attrs == map["data-testid" := "boot"]
    ensures Identified(e) && !Reported(e)
  {
    assert Lower(e.tag) == "script";
    assert Truthy(Attr(e, "data-testid"));
  }

  /** An `<a href="/home">` with no text or other attribute is recorded by the content script only. */
  lemma BareLinkOnlyInContentScript(e: Element)
    requires e.tag == "A" && e.attrs == map["href" := "/home"] && e.className == ClassText("") && e.text == ""
    ensures Reported(e) && !Identified(e)
  {
    assert Lower(e.tag) == "a";
    assert Truthy(Attr(e, "href"));
    assert RecordedText(e) == "";
  }

  /**
   * An empty `<button>` is interactive, so the shadow scan records it when
   * it sits in a shadow root, while neither of the other gates admits it.
   */
  lemma EmptyButtonOnlyInShadowScan(e: Element)
    requires e.tag == "BUTTON" && e.attrs == map[] && e.className == ClassText("") && e.text == ""
    ensures IsInteractive(e) && !Identified(e) && !Reported(e)
  {
    assert Lower(e.tag) == "button";
    assert RecordedText(e) == "";
  }

  /**
   * Both page scans walk the same visits: an element both gates admit is
   * recorded by each, with the same context.
   */
  lemma BothScansRecord(doc: seq<Element>, v: Visit)
    requires v in PageVisits(doc) && Identified(v.loc.el) && !Blacklisted(Lower(v.loc.el.tag))
    ensures MakeRecord(v.loc, v.context) in ScanRecords(doc)
    ensures MakePopupRecord(v.loc.el, v.context) in PopupRecords(doc)
    ensures MakeRecord(v.loc, v.context).context == MakePopupRecord(v.loc.el, v.context).context
  {
    ReportedElementRecorded(doc, v);
    PopupElementRecorded(doc, v);
  }

  /**
   * An id, a data-testid or an aria-label the popup prefers is also one of
   * the content script's candidates.
   */
  lemma PreferredSelectorListed(e: Element, chain: seq<Step>)
    requires chain != []
    requires Id(e) != "" || Truthy(Attr(e, "data-testid")) || Truthy(Attr(e, "aria-label"))
    ensures PreferredSelector(e) in Selectors(e, chain)
  {
    SelectorPriority(e);
    var a := AttributeEntries(e);
    assert Selectors(e, chain) == a + [CssSelector(chain)];
    if Id(e) != "" {
      assert IdEntry(e)[0] in a;
    } else if Truthy(Attr(e, "data-testid")) {
      assert TestIdEntry(e)[0] in a;
    } else {
      assert AriaLabelEntry(e)[0] in a;
    }
  }

  /**
   * The two page scans rank id and data-testid the other way round: for an
   * element with both, the popup keeps `#id` and the content script lists
   * the data-testid selector first.
   */
  lemma IdAndTestIdRankedApart(e: Element, chain: seq<Step>)
    requires chain != [] && Id(e) != "" && Truthy(Attr(e, "data-testid"))
    ensures PreferredSelector(e) == "#" + Id(e)
    ensures Selectors(e, chain)[0] == "[data-testid=\"" + Attr(e, "data-testid").value + "\"]"
    ensures Selectors(e, chain)[0] != PreferredSelector(e)
  {
    SelectorPriority(e);
    var t := TestIdEntry(e)[0];
    var p2 := TestIdEntry(e) + IdEntry(e);
    assert p2[0] == t;
    var p3 := p2 + RoleEntry(e);
    assert p3[0] == t;
    var p4 := p3 + AriaLabelEntry(e);
    assert p4[0] == t;
    var p5 := p4 + InputEntries(e);
    assert p5[0] == t;
    var p6 := p5 + TextEntry(e);
    assert p6[0] == t;
    var p7 := p6 + ClassEntry(e);
    assert p7[0] == t;
    assert Selectors(e, chain) == p7 + [CssSelector(chain)];
    assert Selectors(e, chain)[0][0] == '[';
  }

  /**
   * The same element found under a shadow root is described alike by the
   * content script and by the shadow scan: tag name, id, text, attributes,
   * context, visibility and position agree, and so does the class name when
   * it is a string.
   */
  lemma ShadowRecordsAgree(l: Located, hostTag: string)
    ensures var c := MakeRecord(l, Shadow);
            var s := CreateElementData(l.el, "shadow", hostTag);
            c.tagName == s.tagName && c.id == s.id && c.textContent == s.textContent
            && c.role == s.role && c.ariaLabel == s.ariaLabel && c.dataTestId == s.dataTestId
            && c.placeholder == s.placeholder && c.typeAttr == s.typeAttr && c.href == s.href
            && c.name == s.name && c.context == s.context && c.isVisible == s.isVisible
            && c.position == s.position
            && (s.className.ClassText? ==> c.className == s.className.text)
  {
  }

  /**
   * Every element the shadow scan reports is visited as "shadow" by the
   * content script's page scan, and when it also passes the content
   * script's gates it is in that scan's records with the same description.
   */
  lemma ShadowScanWithinPageScan(doc: seq<Element>, r: ShadowRecord)
    requires r in ScanForest(doc)
    ensures exists l :: Visit(l, Shadow) in PageVisits(doc) && IsInteractive(l.el)
                        && r.tagName == Lower(l.el.tag) && r.id == Id(l.el) && r.isVisible == IsVisible(l.el)
                        && (Reported(l.el) ==> MakeRecord(l, Shadow) in ScanRecords(doc))
  {
    ShadowRecordOrigin(doc, r);
    var hv, l :| hv in ScanTrees(doc, [], [], Main) && hv.loc.el.shadowRoot.ShadowRoot?
                 && l in Walk(hv.loc.el.shadowRoot.nodes, [], []) && IsInteractive(l.el)
                 && Visit(l, Shadow) in ScanTrees(doc, [], [], Main)
                 && r == CreateElementData(l.el, "shadow", hv.loc.el.tag);
    assert Visit(l, Shadow) in PageVisits(doc);
    if Reported(l.el) {
      ReportedElementRecorded(doc, Visit(l, Shadow));
    }
  }
}
