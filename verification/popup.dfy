/**
 * `scanDOM`, the function the popup injects into the active tab: the same
 * walk as the content script's page scan (main document, open shadow roots
 * transitively, readable iframes), with a different gate: eight of the
 * content script's ten identifying fields (no href, no name) and no tag
 * blacklist, so each scanner records elements the other skips.  It records
 * fewer fields and a single preferred selector per element.
 */
module Popup {
  import opened Optional
  import opened Strings
  import opened Dom
  import opened Traversal
  import opened ContentSelectors

  /**
   * The gate of the popup's `processElement`: at least one of id,
   * className, role, aria-label, data-testid, placeholder, type and the
   * recorded text is truthy.
   */
  predicate Identified(e: Element) {
    Id(e) != "" || ClassTruthy(e.className) || Truthy(Attr(e, "role"))
    || Truthy(Attr(e, "aria-label")) || Truthy(Attr(e, "data-testid"))
    || Truthy(Attr(e, "placeholder")) || Truthy(Attr(e, "type"))
    || RecordedText(e) != ""
  }

  /** `[role="r"]`, without the accessible name the content script pairs with it. */
  function RoleOnlyEntry(e: Element): seq<string> {
    var role := Attr(e, "role");
    if Truthy(role) then ["[role=\"" + role.value + "\"]"] else []
  }

  /** The `filter(c => c.length > 0)` test on class tokens. */
  predicate NonEmptyToken(c: string) {
    |c| > 0
  }

  /** `.c` for the first non-empty token of a string className, if any. */
  function FirstClassEntry(e: Element): seq<string> {
    match e.className
    case ClassObject => []
    case ClassText(s) =>
      if s == "" then []
      else
        var classes := Filter(SplitOnSpace(s), NonEmptyToken);
        if |classes| > 0 then ["." + classes[0]] else []
  }

  /** The candidates `generateSelector` pushes, in order. */
  function Candidates(e: Element): seq<string> {
    IdEntry(e) + TestIdEntry(e) + AriaLabelEntry(e) + RoleOnlyEntry(e) + FirstClassEntry(e)
  }

  /** `selectors[0] || element.tagName.toLowerCase()`. */
  function PreferredSelector(e: Element): string {
    var c := Candidates(e);
    if |c| > 0 && c[0] != "" then c[0] else Lower(e.tag)
  }

  /** `generateSelector(element)`. */
  method GenerateSelector(e: Element) returns (selector: string)
    ensures selector == PreferredSelector(e)
  {
    var selectors: seq<string> := [];
    if Id(e) != "" {
      selectors := selectors + ["#" + Id(e)];
    }
    assert selectors == IdEntry(e);
    var testId := Attr(e, "data-testid");
    if Truthy(testId) {
      selectors := selectors + ["[data-testid=\"" + testId.value + "\"]"];
    }
    assert selectors == IdEntry(e) + TestIdEntry(e);
    var ariaLabel := Attr(e, "aria-label");
    if Truthy(ariaLabel) {
      selectors := selectors + ["[aria-label=\"" + ariaLabel.value + "\"]"];
    }
    assert selectors == IdEntry(e) + TestIdEntry(e) + AriaLabelEntry(e);
    var role := Attr(e, "role");
    if Truthy(role) {
      selectors := selectors + ["[role=\"" + role.value + "\"]"];
    }
    assert selectors == IdEntry(e) + TestIdEntry(e) + AriaLabelEntry(e) + RoleOnlyEntry(e);
    selectors := PushFirstClass(e, selectors);
    assert selectors == Candidates(e);
    if |selectors| > 0 && selectors[0] != "" {
      selector := selectors[0];
    } else {
      selector := Lower(e.tag);
    }
  }

  /** The class step of `generateSelector`: push `.c` for the first non-empty class token. */
  method PushFirstClass(e: Element, before: seq<string>) returns (selectors: seq<string>)
    ensures selectors == before + FirstClassEntry(e)
  {
    selectors := before;
    match e.className {
      case ClassText(s) =>
        if s != "" {
          var classes := Filter(SplitOnSpace(s), NonEmptyToken);
          if |classes| > 0 {
            selectors := selectors + ["." + classes[0]];
          }
        }
      case ClassObject =>
    }
  }

  /** Every candidate is non-empty, so the tag name is used exactly when there is no candidate. */
  lemma CandidatesNonEmpty(e: Element)
    ensures AllNonEmpty(Candidates(e))
    ensures |Candidates(e)| <= 5
    ensures PreferredSelector(e) == if Candidates(e) == [] then Lower(e.tag) else Candidates(e)[0]
  {
    var c1 := IdEntry(e) + TestIdEntry(e);
    NonEmptyConcat(IdEntry(e), TestIdEntry(e));
    var c2 := c1 + AriaLabelEntry(e);
    NonEmptyConcat(c1, AriaLabelEntry(e));
    var c3 := c2 + RoleOnlyEntry(e);
    NonEmptyConcat(c2, RoleOnlyEntry(e));
    NonEmptyConcat(c3, FirstClassEntry(e));
    assert Candidates(e) == c3 + FirstClassEntry(e);
  }

  /** Every element of the list is a non-empty string. */
  predicate AllNonEmpty(xs: seq<string>) {
    forall k :: 0 <= k < |xs| ==> xs[k] != ""
  }

  lemma NonEmptyConcat(a: seq<string>, b: seq<string>)
    requires AllNonEmpty(a) && AllNonEmpty(b)
    ensures AllNonEmpty(a + b)
  {
    forall k | 0 <= k < |a + b|
      ensures (a + b)[k] != ""
    {
      if k >= |a| {
        assert (a + b)[k] == b[k - |a|];
      }
    }
  }

  /**
   * The preference order of `generateSelector`: id, then data-testid, then
   * aria-label, then role, then the first class token, then the tag name.
   */
  lemma SelectorPriority(e: Element)
    ensures Id(e) != "" ==> PreferredSelector(e) == "#" + Id(e)
    ensures Id(e) == "" && Truthy(Attr(e, "data-testid")) ==>
              PreferredSelector(e) == "[data-testid=\"" + Attr(e, "data-testid").value + "\"]"
    ensures Id(e) == "" && !Truthy(Attr(e, "data-testid")) && Truthy(Attr(e, "aria-label")) ==>
              PreferredSelector(e) == "[aria-label=\"" + Attr(e, "aria-label").value + "\"]"
    ensures Id(e) == "" && !Truthy(Attr(e, "data-testid")) && !Truthy(Attr(e, "aria-label"))
            && Truthy(Attr(e, "role")) ==>
              PreferredSelector(e) == "[role=\"" + Attr(e, "role").value + "\"]"
    ensures Id(e) == "" && !Truthy(Attr(e, "data-testid")) && !Truthy(Attr(e, "aria-label"))
            && !Truthy(Attr(e, "role")) ==>
              PreferredSelector(e) == if FirstClassEntry(e) == [] then Lower(e.tag) else FirstClassEntry(e)[0]
  {
    CandidatesNonEmpty(e);
  }

  /**
   * The class candidate of a string className s is "." followed by the
   * first non-empty token of `s.split(" ")`, a token without spaces.
   */
  lemma FirstClassToken(e: Element, s: string)
    requires e.className == ClassText(s)
    ensures forall i :: 0 <= i < |SplitOnSpace(s)| && SplitOnSpace(s)[i] != ""
                        && (forall j :: 0 <= j < i ==> SplitOnSpace(s)[j] == "") ==>
              FirstClassEntry(e) == ["." + SplitOnSpace(s)[i]]
    ensures FirstClassEntry(e) != [] ==> ' ' !in FirstClassEntry(e)[0][1..]
  {
    var parts := SplitOnSpace(s);
    var classes := Filter(parts, NonEmptyToken);
    FilterHead(parts, NonEmptyToken);
    if s == "" {
      assert parts == [""];
    }
    if classes != [] {
      var i0 :| 0 <= i0 < |parts| && parts[i0] == classes[0] && NonEmptyToken(parts[i0])
                && forall j :: 0 <= j < i0 ==> !NonEmptyToken(parts[j]);
      forall i | 0 <= i < |parts| && parts[i] != "" && (forall j :: 0 <= j < i ==> parts[j] == "")
        ensures FirstClassEntry(e) == ["." + parts[i]]
      {
        assert i == i0;
      }
      assert classes[0] in parts;
      assert ("." + classes[0])[1..] == classes[0];
    }
  }

  /** There is no class candidate exactly when the className holds nothing but spaces (or nothing). */
  lemma NoClassToken(e: Element, s: string)
    requires e.className == ClassText(s)
    ensures FirstClassEntry(e) == [] <==> OnlySpaces(s)
  {
    if s != "" {
      var parts := SplitOnSpace(s);
      FilterHead(parts, NonEmptyToken);
      SplitJoin(s);
      AllTokensEmpty(parts);
    }
  }

  /** Every code unit of `s` is a space. */
  predicate OnlySpaces(s: string) {
    forall k :: 0 <= k < |s| ==> s[k] == ' '
  }

  /** No token passes the `c.length > 0` filter. */
  predicate NoToken(parts: seq<string>) {
    forall i :: 0 <= i < |parts| ==> !NonEmptyToken(parts[i])
  }

  /** A token without spaces is all spaces exactly when it is empty. */
  lemma TokenSpaces(t: string)
    requires ' ' !in t
    ensures OnlySpaces(t) <==> t == ""
  {
    if t != "" {
      assert t[0] in t;
    }
  }

  /** `a + " " + b` is all spaces exactly when `a` and `b` are. */
  lemma OnlySpacesJoin(a: string, b: string)
    ensures OnlySpaces(a + " " + b) <==> OnlySpaces(a) && OnlySpaces(b)
  {
    var j := a + " " + b;
    if OnlySpaces(j) {
      forall k | 0 <= k < |a| ensures a[k] == ' ' {
        assert a[k] == j[k];
      }
      forall k | 0 <= k < |b| ensures b[k] == ' ' {
        assert b[k] == j[|a| + 1 + k];
      }
    }
  }

  /** No token of a non-empty list is non-empty exactly when the first is empty and none of the rest is non-empty. */
  lemma NoTokenCons(parts: seq<string>)
    requires parts != []
    ensures NoToken(parts) <==> parts[0] == "" && NoToken(parts[1..])
  {
    if parts[0] == "" && NoToken(parts[1..]) {
      forall i | 0 < i < |parts| ensures !NonEmptyToken(parts[i]) {
        assert parts[i] == parts[1..][i - 1];
      }
    }
  }

  /** Joining tokens with " " yields only spaces exactly when every token is empty. */
  lemma {:induction false} AllTokensEmpty(parts: seq<string>)
    requires parts != [] && forall p :: p in parts ==> ' ' !in p
    ensures OnlySpaces(JoinWith(parts, " ")) <==> NoToken(parts)
  {
    var head := parts[0];
    assert head in parts;
    TokenSpaces(head);
    NoTokenCons(parts);
    if |parts| == 1 {
      assert JoinWith(parts, " ") == head;
      assert parts[1..] == [];
    } else {
      var rest := JoinWith(parts[1..], " ");
      assert forall p :: p in parts[1..] ==> p in parts;
      AllTokensEmpty(parts[1..]);
      assert JoinWith(parts, " ") == head + " " + rest;
      OnlySpacesJoin(head, rest);
    }
  }

  /** The object the popup's `processElement` pushes. */
  datatype PopupRecord = PopupRecord(
    tagName: string,
    id: string,
    className: string,
    textContent: string,
    role: Option<string>,
    ariaLabel: Option<string>,
    dataTestId: Option<string>,
    placeholder: Option<string>,
    typeAttr: Option<string>,
    context: string,
    selector: string)

  function MakePopupRecord(e: Element, ctx: Context): PopupRecord {
    PopupRecord(
      Lower(e.tag), Id(e), ClassString(e.className), RecordedText(e),
      Attr(e, "role"), Attr(e, "aria-label"), Attr(e, "data-testid"),
      Attr(e, "placeholder"), Attr(e, "type"), ContextLabel(ctx), PreferredSelector(e))
  }

  /** What the popup's `processElement(element, context)` pushes for a visit, if anything. */
  function PopupProcess(v: Visit): Option<PopupRecord> {
    if Identified(v.loc.el) then Some(MakePopupRecord(v.loc.el, v.context)) else None
  }

  /** One visit yields its record exactly when the element passes the gate. */
  lemma PopupSingleCollect(v: Visit)
    ensures Collect([v], PopupProcess) == if Identified(v.loc.el) then [MakePopupRecord(v.loc.el, v.context)] else []
  {
    assert [v][1..] == [];
  }

  /** The `elements` of a whole page, in the order they are pushed. */
  function PopupRecords(doc: seq<Element>): seq<PopupRecord> {
    Collect(PageVisits(doc), PopupProcess)
  }

  /** The value `scanDOM` returns. */
  datatype ScanResult = ScanResult(elements: seq<PopupRecord>)

  /** The `elements` array of one `scanDOM` call, with the helpers that fill it. */
  class PopupScanner {
    var elements: seq<PopupRecord>

    constructor()
      ensures elements == []
    {
      elements := [];
    }

    /** The popup's `processElement(element, context)`. */
    method ProcessElement(l: Located, ctx: Context)
      modifies this
      ensures elements == old(elements) + Collect([Visit(l, ctx)], PopupProcess)
    {
      var e := l.el;
      PopupSingleCollect(Visit(l, ctx));
      var tagName := Lower(e.tag);
      var id := Id(e);
      var className := e.className;
      var textContent := RecordedText(e);
      var role := Attr(e, "role");
      var ariaLabel := Attr(e, "aria-label");
      var dataTestId := Attr(e, "data-testid");
      var placeholder := Attr(e, "placeholder");
      var typeAttr := Attr(e, "type");
      if !Identified(e) {
        return;
      }
      var selector := GenerateSelector(e);
      var record := PopupRecord(
        tagName, id, ClassString(className), textContent, role, ariaLabel, dataTestId,
        placeholder, typeAttr, ContextLabel(ctx), selector);
      assert record == MakePopupRecord(e, ctx);
      elements := elements + [record];
    }

    /** The popup's `scanShadowDOM(element)`. */
    method ScanShadowDOM(e: Element)
      modifies this
      ensures elements == old(elements) + Collect(ShadowVisits(e), PopupProcess)
      decreases Size(e)
    {
      if e.shadowRoot.ShadowRoot? {
        var all := Walk(e.shadowRoot.nodes, [], []);
        var i := 0;
        while i < |all|
          invariant 0 <= i <= |all|
          invariant elements == old(elements) + Collect(VisitsOver(all[..i], Shadow), PopupProcess)
        {
          assert all[i] in all;
          ProcessElement(all[i], Shadow);
          ScanShadowDOM(all[i].el);
          CollectLoopStep(all, i, Shadow, PopupProcess);
          AppendThree(old(elements), Collect(VisitsOver(all[..i], Shadow), PopupProcess),
                      Collect([Visit(all[i], Shadow)], PopupProcess),
                      Collect(ShadowVisits(all[i].el), PopupProcess));
          i := i + 1;
        }
        assert all[..|all|] == all;
        ScanIsWalkOrder(e.shadowRoot.nodes, [], [], Shadow);
      }
    }

    /** The body of `scanIframes()` for one readable iframe: every element of its document, tagged with the iframe's index. */
    method ScanFrameDocument(d: seq<Element>, index: nat)
      modifies this
      ensures elements == old(elements) + Collect(Tagged(Walk(d, [], []), Iframe(index)), PopupProcess)
    {
      var all := Walk(d, [], []);
      var j := 0;
      while j < |all|
        invariant 0 <= j <= |all|
        invariant elements == old(elements) + Collect(Tagged(all[..j], Iframe(index)), PopupProcess)
      {
        ProcessElement(all[j], Iframe(index));
        CollectTaggedStep(all, j, Iframe(index), PopupProcess);
        AppendTwo(old(elements), Collect(Tagged(all[..j], Iframe(index)), PopupProcess),
                  Collect([Visit(all[j], Iframe(index))], PopupProcess));
        j := j + 1;
      }
      assert all[..|all|] == all;
    }

    /** The callback of `scanIframes()` for one iframe: its document's elements when it can be read, nothing otherwise. */
    method ScanFrame(frame: Element, index: nat)
      modifies this
      ensures elements == old(elements) + Collect(FrameDocVisits(frame, index), PopupProcess)
    {
      match frame.content {
        case SameOrigin(d) =>
          ScanFrameDocument(d, index);
        case NoDocument =>
          assert elements == old(elements) + [];
        case CrossOrigin =>
          assert elements == old(elements) + [];
      }
    }

    /** The popup's `scanIframes()`. */
    method ScanIframes(doc: seq<Element>)
      modifies this
      ensures elements == old(elements) + Collect(FrameVisits(Iframes(doc)), PopupProcess)
    {
      var frames := Iframes(doc);
      var index := 0;
      while index < |frames|
        invariant 0 <= index <= |frames|
        invariant elements == old(elements) + Collect(FrameVisits(frames[..index]), PopupProcess)
      {
        ghost var done := Collect(FrameVisits(frames[..index]), PopupProcess);
        ScanFrame(frames[index], index);
        CollectFrameStep(frames, index, PopupProcess);
        AppendTwo(old(elements), done, Collect(FrameDocVisits(frames[index], index), PopupProcess));
        index := index + 1;
      }
      assert frames[..|frames|] == frames;
    }
  }

  /** `scanDOM()`. */
  method ScanDOM(doc: seq<Element>) returns (result: ScanResult)
    ensures result.elements == PopupRecords(doc)
  {
    var scanner := new PopupScanner();
    var all := Walk(doc, [], []);
    var i := 0;
    while i < |all|
      invariant 0 <= i <= |all|
      invariant scanner.elements == Collect(VisitsOver(all[..i], Main), PopupProcess)
    {
      scanner.ProcessElement(all[i], Main);
      scanner.ScanShadowDOM(all[i].el);
      CollectLoopStep(all, i, Main, PopupProcess);
      i := i + 1;
    }
    assert all[..|all|] == all;
    ScanIsWalkOrder(doc, [], [], Main);
    scanner.ScanIframes(doc);
    CollectAppend(ScanTrees(doc, [], [], Main), FrameVisits(Iframes(doc)), PopupProcess);
    result := ScanResult(scanner.elements);
  }

  /** Every popup record was made from a visit of an element that passes the gate. */
  lemma PopupRecordOrigin(doc: seq<Element>, r: PopupRecord)
    requires r in PopupRecords(doc)
    ensures exists v :: v in PageVisits(doc) && Identified(v.loc.el) && r == MakePopupRecord(v.loc.el, v.context)
  {
    CollectOrigin(PageVisits(doc), PopupProcess, r);
  }

  /** Every visit of an element that passes the gate yields its record; there is no tag blacklist. */
  lemma PopupElementRecorded(doc: seq<Element>, v: Visit)
    requires v in PageVisits(doc) && Identified(v.loc.el)
    ensures MakePopupRecord(v.loc.el, v.context) in PopupRecords(doc)
  {
    CollectComplete(PageVisits(doc), PopupProcess, v);
  }

  /**
   * Every popup record has a text of at most 100 code units, the context
   * "main", "shadow" or "iframe-i" of a readable iframe, an identifying
   * field (unless the className is an SVG object, recorded as ""), and the
   * selector its element prefers: `#id` whenever it has an id.
   */
  lemma PopupRecordsWellFormed(doc: seq<Element>, r: PopupRecord)
    requires r in PopupRecords(doc)
    ensures Length(r.textContent) <= MaxTextLength
    ensures r.context == "main" || r.context == "shadow"
            || exists i :: 0 <= i < |Iframes(doc)| && Iframes(doc)[i].content.SameOrigin?
                           && r.context == "iframe-" + Decimal(i)
    ensures r.id != "" || r.className != "" || Truthy(r.role) || Truthy(r.ariaLabel) || Truthy(r.dataTestId)
            || Truthy(r.placeholder) || Truthy(r.typeAttr) || r.textContent != ""
            || exists v :: v in PageVisits(doc) && v.loc.el.className.ClassObject? && r == MakePopupRecord(v.loc.el, v.context)
    ensures r.id != "" ==> r.selector == "#" + r.id
  {
    PopupRecordOrigin(doc, r);
    var v :| v in PageVisits(doc) && Identified(v.loc.el) && r == MakePopupRecord(v.loc.el, v.context);
    SelectorPriority(v.loc.el);
    PageVisitContexts(doc, v);
    if v.context.Iframe? {
      var i := v.context.index;
      IframeLabel(i);
      assert v.context == Iframe(i);
    }
  }

  /** An element with id "main" and a data-testid is selected by its id. */
  lemma IdBeatsTestIdExample(e: Element)
    requires e.attrs == map["id" := "main", "data-testid" := "content"]
    ensures PreferredSelector(e) == "#main"
  {
    SelectorPriority(e);
  }

  lemma SplitExample()
    ensures SplitOnSpace("  btn") == ["", "", "btn"]
  {
    SplitToken("btn");
    SplitLeadingSpace("btn");
    SplitLeadingSpace(" btn");
    assert " " + "btn" == " btn" && " " + " btn" == "  btn";
  }

  /** The class candidate of `class="  btn"` is `.btn`: the two empty tokens are skipped. */
  lemma LeadingSpacesClassEntry(e: Element)
    requires e.className == ClassText("  btn")
    ensures FirstClassEntry(e) == [".btn"]
  {
    var s := e.className.text;
    var parts := SplitOnSpace(s);
    SplitExample();
    assert parts == ["", "", "btn"];
    FirstClassToken(e, s);
    assert forall j :: 0 <= j < 2 ==> parts[j] == "";
    assert FirstClassEntry(e) == ["." + parts[2]];
    assert "." + "btn" == ".btn";
  }

  /** An element with no attributes and `class="  btn"` is selected by `.btn`. */
  lemma LeadingSpacesClassExample(e: Element)
    requires e.attrs == map[] && e.className == ClassText("  btn")
    ensures PreferredSelector(e) == ".btn"
  {
    LeadingSpacesClassEntry(e);
    assert Id(e) == "" && !Truthy(Attr(e, "data-testid")) && !Truthy(Attr(e, "aria-label"))
           && !Truthy(Attr(e, "role"));
    SelectorPriority(e);
  }
}
