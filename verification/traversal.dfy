/**
 * The order in which the content script's `scanPageDOM` and the popup's
 * injected `scanDOM` visit elements, and the context each visit carries.
 * Both walk the main document with `querySelectorAll("*")`, descend into
 * every open shadow root they meet (recursively, tagging everything there
 * "shadow"), and then read every `iframe` of the main document, tagging its
 * elements "iframe-<index>"; iframe documents are not searched for shadow
 * roots.
 */
module Traversal {
  import opened Optional
  import opened Strings
  import opened Dom

  /** The root a visited element was found under. */
  datatype Context = Main | Shadow | Iframe(index: nat)

  /** The `context` string a record carries. */
  function ContextLabel(c: Context): string {
    match c
    case Main => "main"
    case Shadow => "shadow"
    case Iframe(i) => "iframe-" + Decimal(i)
  }

  lemma IframeLabel(i: nat)
    ensures ContextLabel(Iframe(i)) == "iframe-" + Decimal(i)
  {
  }

  /** Different contexts are told apart by their labels. */
  lemma ContextLabelInjective(c: Context, d: Context)
    ensures ContextLabel(c) == ContextLabel(d) ==> c == d
  {
    if ContextLabel(c) == ContextLabel(d) {
      if c.Iframe? && d.Iframe? {
        assert Decimal(c.index) == ContextLabel(c)[7..];
        assert Decimal(d.index) == ContextLabel(d)[7..];
        DecimalInjective(c.index, d.index);
      } else if c.Iframe? || d.Iframe? {
        assert ContextLabel(c)[0] == ContextLabel(d)[0];
      } else {
        assert ContextLabel(c)[0] == ContextLabel(d)[0];
      }
    }
  }

  datatype Visit = Visit(loc: Located, context: Context)

  /**
   * Document order over a forest (what `querySelectorAll("*")` on a
   * document or shadow root returns, and the order a TreeWalker visits):
   * each element, then its descendants.  Shadow content is not entered.
   * `up` is the ancestor chain of the forest's parent element, `before` the
   * raw tag names of the element siblings that precede `f[0]`, nearest first.
   */
  function Walk(f: seq<Element>, up: seq<Step>, before: seq<string>): (locs: seq<Located>)
    ensures forall l :: l in locs ==> Anchored(l) && Size(l.el) <= SizeF(f)
    ensures f != [] ==> |locs| > 0 && locs[0].el == f[0]
    decreases f
  {
    if f == [] then []
    else
      var t := f[0];
      var step := Step(t.tag, Id(t), before);
      [Located(t, [step] + up)]
      + Walk(t.children, [step] + up, [])
      + Walk(f[1..], up, [t.tag] + before)
  }

  /**
   * The visits of a main-document or shadow-root scan: each element in
   * document order with context `ctx`, followed at once by the content of
   * its shadow root, if any, and then by its descendants.
   */
  function ScanTrees(f: seq<Element>, up: seq<Step>, before: seq<string>, ctx: Context): seq<Visit>
    decreases SizeF(f), 1
  {
    if f == [] then []
    else
      var t := f[0];
      var step := Step(t.tag, Id(t), before);
      [Visit(Located(t, [step] + up), ctx)]
      + ShadowVisits(t)
      + ScanTrees(t.children, [step] + up, [], ctx)
      + ScanTrees(f[1..], up, [t.tag] + before, ctx)
  }

  /** `scanShadowDOM(element)`: everything under the element's open shadow root. */
  function ShadowVisits(e: Element): seq<Visit>
    decreases Size(e), 0
  {
    if e.shadowRoot.ShadowRoot? then ScanTrees(e.shadowRoot.nodes, [], [], Shadow) else []
  }

  /**
   * The visits made by a loop over a list of located elements that handles
   * each one and then scans its shadow root: the shape of the source's
   * `forEach(el => { processElement(el, ctx); scanShadowDOM(el); })`.
   */
  function VisitsOver(locs: seq<Located>, ctx: Context): seq<Visit>
  {
    if locs == [] then []
    else [Visit(locs[0], ctx)] + ShadowVisits(locs[0].el) + VisitsOver(locs[1..], ctx)
  }

  lemma {:induction false} VisitsOverAppend(a: seq<Located>, b: seq<Located>, ctx: Context)
    ensures VisitsOver(a + b, ctx) == VisitsOver(a, ctx) + VisitsOver(b, ctx)
  {
    if a == [] {
      assert a + b == b;
    } else {
      assert (a + b)[0] == a[0];
      assert (a + b)[1..] == a[1..] + b;
      VisitsOverAppend(a[1..], b, ctx);
      AppendTwo([Visit(a[0], ctx)] + ShadowVisits(a[0].el), VisitsOver(a[1..], ctx), VisitsOver(b, ctx));
    }
  }

  /**
   * The recursive description of a scan and the loop over document order
   * agree: handling the elements of `querySelectorAll("*")` one after the
   * other, each followed by its shadow root, is a depth-first scan.
   */
  lemma {:induction false} ScanIsWalkOrder(f: seq<Element>, up: seq<Step>, before: seq<string>, ctx: Context)
    ensures ScanTrees(f, up, before, ctx) == VisitsOver(Walk(f, up, before), ctx)
    decreases f
  {
    if f != [] {
      var t := f[0];
      var step := Step(t.tag, Id(t), before);
      var head := [Located(t, [step] + up)];
      var kids := Walk(t.children, [step] + up, []);
      var rest := Walk(f[1..], up, [t.tag] + before);
      ScanIsWalkOrder(t.children, [step] + up, [], ctx);
      ScanIsWalkOrder(f[1..], up, [t.tag] + before, ctx);
      VisitsOverAppend(head + kids, rest, ctx);
      VisitsOverAppend(head, kids, ctx);
      assert Walk(f, up, before) == head + kids + rest;
    }
  }

  /** The iframe elements among `locs`, in order: all of them and nothing else. */
  function FramesIn(locs: seq<Located>): (frames: seq<Element>)
    ensures |frames| <= |locs|
    ensures forall e :: e in frames ==> Lower(e.tag) == "iframe"
    ensures forall l :: l in locs && Lower(l.el.tag) == "iframe" ==> l.el in frames
  {
    if locs == [] then []
    else (if Lower(locs[0].el.tag) == "iframe" then [locs[0].el] else []) + FramesIn(locs[1..])
  }

  /** The iframes of a concatenation are those of the first part followed by those of the second. */
  lemma {:induction false} FramesInAppend(a: seq<Located>, b: seq<Located>)
    ensures FramesIn(a + b) == FramesIn(a) + FramesIn(b)
  {
    if a == [] {
      assert a + b == b;
    } else {
      assert (a + b)[0] == a[0];
      assert (a + b)[1..] == a[1..] + b;
      FramesInAppend(a[1..], b);
      AppendTwo(if Lower(a[0].el.tag) == "iframe" then [a[0].el] else [], FramesIn(a[1..]), FramesIn(b));
    }
  }

  /** Every iframe of the main document's tree has an index among `Iframes(doc)`. */
  lemma MainIframeListed(doc: seq<Element>, l: Located)
    requires l in Walk(doc, [], []) && Lower(l.el.tag) == "iframe"
    ensures exists i :: 0 <= i < |Iframes(doc)| && Iframes(doc)[i] == l.el
  {
    var frames := Iframes(doc);
    assert l.el in frames;
    var i :| 0 <= i < |frames| && frames[i] == l.el;
  }

  /** `document.querySelectorAll("iframe")`: iframes of the main document's own tree. */
  function Iframes(doc: seq<Element>): seq<Element>
  {
    FramesIn(Walk(doc, [], []))
  }

  /** Every located element of `locs`, with context `ctx` and no shadow scan. */
  function Tagged(locs: seq<Located>, ctx: Context): (vs: seq<Visit>)
    ensures |vs| == |locs|
    ensures forall i :: 0 <= i < |locs| ==> vs[i] == Visit(locs[i], ctx)
  {
    if locs == [] then [] else [Visit(locs[0], ctx)] + Tagged(locs[1..], ctx)
  }

  /**
   * The visits made for the `index`-th iframe: the elements of its document
   * when that document can be read, nothing otherwise.
   */
  function FrameDocVisits(frame: Element, index: nat): seq<Visit>
  {
    match frame.content
    case SameOrigin(doc) => Tagged(Walk(doc, [], []), Iframe(index))
    case _ => []
  }

  /** `scanIframes()` over the given iframes, in order. */
  function FrameVisits(frames: seq<Element>): seq<Visit>
    decreases |frames|
  {
    if frames == [] then []
    else FrameVisits(frames[..|frames| - 1]) + FrameDocVisits(frames[|frames| - 1], |frames| - 1)
  }

  /** All visits of a full page scan: main document with its shadow roots, then the iframes. */
  function PageVisits(doc: seq<Element>): seq<Visit>
  {
    ScanTrees(doc, [], [], Main) + FrameVisits(Iframes(doc))
  }

  /** `forEach` pushing the record `process` makes of a visit, when it makes one. */
  function Collect<R>(vs: seq<Visit>, process: Visit -> Option<R>): seq<R>
  {
    if vs == [] then []
    else (match process(vs[0]) case Some(r) => [r] case None => []) + Collect(vs[1..], process)
  }

  lemma {:induction false} CollectAppend<R>(a: seq<Visit>, b: seq<Visit>, process: Visit -> Option<R>)
    ensures Collect(a + b, process) == Collect(a, process) + Collect(b, process)
  {
    if a == [] {
      assert a + b == b;
    } else {
      assert (a + b)[0] == a[0];
      assert (a + b)[1..] == a[1..] + b;
      CollectAppend(a[1..], b, process);
      AppendTwo(match process(a[0]) case Some(r) => [r] case None => [], Collect(a[1..], process), Collect(b, process));
    }
  }

  /** Every collected record was made from one of the visits, and no visit without a record contributes. */
  lemma {:induction false} CollectOrigin<R>(vs: seq<Visit>, process: Visit -> Option<R>, r: R)
    requires r in Collect(vs, process)
    ensures exists v :: v in vs && process(v) == Some(r)
  {
    if process(vs[0]) != Some(r) {
      CollectOrigin(vs[1..], process, r);
    }
  }

  /** A visit that makes a record contributes that record. */
  lemma {:induction false} CollectComplete<R>(vs: seq<Visit>, process: Visit -> Option<R>, v: Visit)
    requires v in vs && process(v).Some?
    ensures process(v).value in Collect(vs, process)
  {
    if vs[0] != v {
      CollectComplete(vs[1..], process, v);
    }
  }

  /** Scanning a tree tags its own elements `ctx` and all shadow content "shadow". */
  lemma {:induction false} ScanTreesContexts(f: seq<Element>, up: seq<Step>, before: seq<string>, ctx: Context)
    ensures forall v :: v in ScanTrees(f, up, before, ctx) ==> v.context == ctx || v.context == Shadow
    decreases SizeF(f), 1
  {
    if f != [] {
      var t := f[0];
      var step := Step(t.tag, Id(t), before);
      ShadowVisitsContexts(t);
      ScanTreesContexts(t.children, [step] + up, [], ctx);
      ScanTreesContexts(f[1..], up, [t.tag] + before, ctx);
    }
  }

  lemma {:induction false} ShadowVisitsContexts(e: Element)
    ensures forall v :: v in ShadowVisits(e) ==> v.context == Shadow
    decreases Size(e), 0
  {
    if e.shadowRoot.ShadowRoot? {
      ScanTreesContexts(e.shadowRoot.nodes, [], [], Shadow);
    }
  }

  /** A located element of the loop is visited, and so is all of its shadow content. */
  lemma {:induction false} VisitsOverContains(locs: seq<Located>, ctx: Context, l: Located)
    requires l in locs
    ensures Visit(l, ctx) in VisitsOver(locs, ctx)
    ensures forall v :: v in ShadowVisits(l.el) ==> v in VisitsOver(locs, ctx)
  {
    if locs[0] != l {
      VisitsOverContains(locs[1..], ctx, l);
    }
  }

  /** Each visit of the loop is the visit of one of its elements or lies under one of their shadow roots. */
  lemma {:induction false} VisitsOverOrigin(locs: seq<Located>, ctx: Context, v: Visit)
    requires v in VisitsOver(locs, ctx)
    ensures exists l :: l in locs && (v == Visit(l, ctx) || v in ShadowVisits(l.el))
  {
    if v != Visit(locs[0], ctx) && v !in ShadowVisits(locs[0].el) {
      VisitsOverOrigin(locs[1..], ctx, v);
      var l :| l in locs[1..] && (v == Visit(l, ctx) || v in ShadowVisits(l.el));
      assert l in locs;
    }
  }

  /** The shadow content of any element met inside a shadow root is part of that root's scan. */
  lemma {:induction false} NestedShadowVisited(e: Element, hv: Visit)
    requires hv in ShadowVisits(e)
    ensures forall v :: v in ShadowVisits(hv.loc.el) ==> v in ShadowVisits(e)
    decreases Size(e)
  {
    var locs := Walk(e.shadowRoot.nodes, [], []);
    ScanIsWalkOrder(e.shadowRoot.nodes, [], [], Shadow);
    VisitsOverOrigin(locs, Shadow, hv);
    var l :| l in locs && (hv == Visit(l, Shadow) || hv in ShadowVisits(l.el));
    VisitsOverContains(locs, Shadow, l);
    if hv != Visit(l, Shadow) {
      NestedShadowVisited(l.el, hv);
    }
  }

  /** The shadow content of every element the main-document scan meets is part of that scan. */
  lemma MainShadowVisited(doc: seq<Element>, hv: Visit)
    requires hv in ScanTrees(doc, [], [], Main)
    ensures forall v :: v in ShadowVisits(hv.loc.el) ==> v in ScanTrees(doc, [], [], Main)
  {
    var locs := Walk(doc, [], []);
    ScanIsWalkOrder(doc, [], [], Main);
    VisitsOverOrigin(locs, Main, hv);
    var l :| l in locs && (hv == Visit(l, Main) || hv in ShadowVisits(l.el));
    VisitsOverContains(locs, Main, l);
    if hv != Visit(l, Main) {
      NestedShadowVisited(l.el, hv);
    }
  }

  /**
   * Shadow roots are scanned transitively: every element of an open shadow
   * root is visited as "shadow", and so is everything its own shadow root
   * holds.
   */
  lemma ShadowContentVisited(e: Element, l: Located)
    requires e.shadowRoot.ShadowRoot? && l in Walk(e.shadowRoot.nodes, [], [])
    ensures Visit(l, Shadow) in ShadowVisits(e)
    ensures forall v :: v in ShadowVisits(l.el) ==> v in ShadowVisits(e)
  {
    ScanIsWalkOrder(e.shadowRoot.nodes, [], [], Shadow);
    VisitsOverContains(Walk(e.shadowRoot.nodes, [], []), Shadow, l);
  }

  /**
   * Every element of the main document's own tree is visited as "main",
   * and the content of its shadow root is part of the page scan.
   */
  lemma MainElementVisited(doc: seq<Element>, l: Located)
    requires l in Walk(doc, [], [])
    ensures Visit(l, Main) in PageVisits(doc)
    ensures forall v :: v in ShadowVisits(l.el) ==> v in PageVisits(doc)
  {
    ScanIsWalkOrder(doc, [], [], Main);
    VisitsOverContains(Walk(doc, [], []), Main, l);
  }

  /**
   * Each iframe visit belongs to a readable iframe: its context is that
   * iframe's index, and the element lies in the iframe document's own tree
   * (its shadow roots are not entered).
   */
  lemma {:induction false} FrameVisitOrigin(frames: seq<Element>, v: Visit)
    requires v in FrameVisits(frames)
    ensures v.context.Iframe? && v.context.index < |frames|
    ensures frames[v.context.index].content.SameOrigin?
    ensures v.loc in Walk(frames[v.context.index].content.doc, [], [])
    decreases |frames|
  {
    var n := |frames| - 1;
    var init := frames[..n];
    if v in FrameVisits(init) {
      FrameVisitOrigin(init, v);
      assert frames[v.context.index] == init[v.context.index];
    } else {
      assert v in FrameDocVisits(frames[n], n);
      var i :| 0 <= i < |Walk(frames[n].content.doc, [], [])| && v == Visit(Walk(frames[n].content.doc, [], [])[i], Iframe(n));
    }
  }

  lemma TaggedContains(locs: seq<Located>, ctx: Context, l: Located)
    requires l in locs
    ensures Visit(l, ctx) in Tagged(locs, ctx)
  {
    var k :| 0 <= k < |locs| && locs[k] == l;
    assert Tagged(locs, ctx)[k] == Visit(l, ctx);
  }

  /** Every element of a readable iframe's document is visited with that iframe's index. */
  lemma {:induction false} FrameElementVisited(frames: seq<Element>, i: nat, l: Located)
    requires i < |frames| && frames[i].content.SameOrigin?
    requires l in Walk(frames[i].content.doc, [], [])
    ensures Visit(l, Iframe(i)) in FrameVisits(frames)
    decreases |frames|
  {
    var n := |frames| - 1;
    var init := frames[..n];
    assert FrameVisits(frames) == FrameVisits(init) + FrameDocVisits(frames[n], n);
    if i < n {
      assert init[i] == frames[i];
      FrameElementVisited(init, i, l);
    } else {
      var tail := FrameDocVisits(frames[n], n);
      assert i == n;
      assert tail == Tagged(Walk(frames[n].content.doc, [], []), Iframe(n));
      TaggedContains(Walk(frames[n].content.doc, [], []), Iframe(n), l);
      assert Visit(l, Iframe(i)) in tail;
    }
  }

  /** An iframe whose document cannot be read contributes no visit. */
  lemma UnreadableFrameSkipped(frames: seq<Element>, i: nat)
    requires i < |frames| && !frames[i].content.SameOrigin?
    ensures forall v :: v in FrameVisits(frames) ==> v.context != Iframe(i)
  {
    forall v | v in FrameVisits(frames) ensures v.context != Iframe(i) {
      FrameVisitOrigin(frames, v);
    }
  }

  /** The page scan tags visits "main", "shadow", or with a readable iframe's index. */
  lemma PageVisitContexts(doc: seq<Element>, v: Visit)
    requires v in PageVisits(doc)
    ensures v.context == Main || v.context == Shadow
            || (v.context.Iframe? && v.context.index < |Iframes(doc)|
                && Iframes(doc)[v.context.index].content.SameOrigin?)
  {
    ScanTreesContexts(doc, [], [], Main);
    if v !in ScanTrees(doc, [], [], Main) {
      FrameVisitOrigin(Iframes(doc), v);
    }
  }

  /** One more turn of the loop over `locs`: the element at `i`, then its shadow content. */
  lemma CollectLoopStep<R>(locs: seq<Located>, i: nat, ctx: Context, process: Visit -> Option<R>)
    requires i < |locs|
    ensures Collect(VisitsOver(locs[..i + 1], ctx), process)
            == Collect(VisitsOver(locs[..i], ctx), process) + Collect([Visit(locs[i], ctx)], process)
               + Collect(ShadowVisits(locs[i].el), process)
  {
    assert locs[..i + 1] == locs[..i] + [locs[i]];
    VisitsOverAppend(locs[..i], [locs[i]], ctx);
    assert VisitsOver([locs[i]], ctx) == [Visit(locs[i], ctx)] + ShadowVisits(locs[i].el) by {
      assert [locs[i]][1..] == [];
    }
    CollectAppend(VisitsOver(locs[..i], ctx), [Visit(locs[i], ctx)] + ShadowVisits(locs[i].el), process);
    CollectAppend([Visit(locs[i], ctx)], ShadowVisits(locs[i].el), process);
  }

  /** One more turn of a loop that only handles each element of `locs`. */
  lemma CollectTaggedStep<R>(locs: seq<Located>, j: nat, ctx: Context, process: Visit -> Option<R>)
    requires j < |locs|
    ensures Collect(Tagged(locs[..j + 1], ctx), process)
            == Collect(Tagged(locs[..j], ctx), process) + Collect([Visit(locs[j], ctx)], process)
  {
    assert Tagged(locs[..j + 1], ctx) == Tagged(locs[..j], ctx) + [Visit(locs[j], ctx)];
    CollectAppend(Tagged(locs[..j], ctx), [Visit(locs[j], ctx)], process);
  }

  /** One more turn of the loop over the iframes. */
  lemma CollectFrameStep<R>(frames: seq<Element>, index: nat, process: Visit -> Option<R>)
    requires index < |frames|
    ensures Collect(FrameVisits(frames[..index + 1]), process)
            == Collect(FrameVisits(frames[..index]), process) + Collect(FrameDocVisits(frames[index], index), process)
  {
    assert frames[..index + 1][..index] == frames[..index];
    CollectAppend(FrameVisits(frames[..index]), FrameDocVisits(frames[index], index), process);
  }

  /** A page of one element with no children, no shadow root and no iframe is visited once, as "main". */
  lemma LoneElementVisits(e: Element)
    requires e.children == [] && e.shadowRoot == NoShadowRoot && Lower(e.tag) != "iframe"
    ensures PageVisits([e]) == [Visit(Located(e, [Step(e.tag, Id(e), [])]), Main)]
  {
    var chain: Chain := [Step(e.tag, Id(e), [])];
    var loc := Located(e, chain);
    assert Walk([e], [], []) == [loc] by {
      assert [e][1..] == [];
      assert [Step(e.tag, Id(e), [])] + [] == chain;
    }
    assert Iframes([e]) == [] by {
      assert FramesIn([loc]) == [] by {
        assert [loc][1..] == [];
      }
    }
    assert ScanTrees([e], [], [], Main) == [Visit(loc, Main)] by {
      assert [e][1..] == [];
      assert [Step(e.tag, Id(e), [])] + [] == chain;
    }
  }
}
