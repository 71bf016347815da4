/**
 * `getCSSSelector` of the content script: the structural selector that
 * ends every candidate list.  An element with an id is `#id`; otherwise the
 * selector is a path of at most six segments from an ancestor down to the
 * element, joined with " > ", where each segment is the lower-cased tag name
 * with `:nth-of-type(k)` when k > 1 elements of the same tag come before it
 * among its siblings, and where the walk up stops early at the first
 * ancestor with an id, rendered `tag#id`.
 */
module CssPath {
  import opened Strings
  import opened Dom

  /** The walk stops once the path holds this many segments. */
  const MaxSegments: nat := 6

  /** How many of the given tag names equal `tag` (raw names, as `tagName === tagName` compares them). */
  function CountTag(tags: seq<string>, tag: string): (n: nat)
    ensures n <= |tags|
  {
    if tags == [] then 0
    else CountTag(tags[..|tags| - 1], tag) + (if tags[|tags| - 1] == tag then 1 else 0)
  }

  /** The count is the number of occurrences of `tag` among the names: a sibling adds one exactly when its name is `tag`. */
  lemma {:induction false} CountTagOccurrences(tags: seq<string>, tag: string)
    ensures CountTag(tags, tag) == multiset(tags)[tag]
    ensures forall t :: CountTag(tags + [t], tag) == CountTag(tags, tag) + (if t == tag then 1 else 0)
  {
    forall t
      ensures CountTag(tags + [t], tag) == CountTag(tags, tag) + (if t == tag then 1 else 0)
    {
      assert (tags + [t])[..|tags|] == tags;
    }
    if tags != [] {
      var init := tags[..|tags| - 1];
      CountTagOccurrences(init, tag);
      assert tags == init + [tags[|tags| - 1]];
      assert multiset(tags) == multiset(init) + multiset{tags[|tags| - 1]};
    }
  }

  /** The position of an element among the siblings of its type, counted from 1. */
  function NthOfType(s: Step): nat {
    1 + CountTag(s.before, s.tag)
  }

  /** The segment of an ancestor that has no id. */
  function PlainSegment(s: Step): string {
    Lower(s.tag) + (if NthOfType(s) > 1 then ":nth-of-type(" + Decimal(NthOfType(s)) + ")" else "")
  }

  /** The segment of the ancestor with an id, where the walk stops. */
  function IdSegment(s: Step): string {
    Lower(s.tag) + "#" + s.id
  }

  function Segment(s: Step): string {
    if s.id != "" then IdSegment(s) else PlainSegment(s)
  }

  /**
   * The segments, root-most first, of the walk that starts at `chain[0]`
   * and may add at most `budget` more segments.
   */
  function PathSegments(chain: seq<Step>, budget: nat): seq<string>
  {
    if chain == [] || budget == 0 then []
    else if chain[0].id != "" then [IdSegment(chain[0])]
    else PathSegments(chain[1..], budget - 1) + [PlainSegment(chain[0])]
  }

  /** The selector `getCSSSelector` returns for the element whose ancestor chain is `chain`. */
  function CssSelector(chain: seq<Step>): string
    requires chain != []
  {
    if chain[0].id != "" then "#" + chain[0].id
    else JoinWith(PathSegments(chain, MaxSegments), " > ")
  }

  /** The walk reaches at least the element itself, and at most `budget` elements of the chain. */
  lemma {:induction false} PathSegmentsLength(chain: seq<Step>, budget: nat)
    ensures |PathSegments(chain, budget)| <= budget && |PathSegments(chain, budget)| <= |chain|
    ensures chain != [] && budget > 0 ==> |PathSegments(chain, budget)| >= 1
  {
    if chain != [] && budget > 0 && chain[0].id == "" {
      PathSegmentsLength(chain[1..], budget - 1);
    }
  }

  /**
   * Read from the element end, the i-th segment is the segment of the i-th
   * element of the chain, and every element before the last one reached has
   * no id.
   */
  lemma {:induction false} PathSegmentsAt(chain: seq<Step>, budget: nat, i: nat)
    requires i < |PathSegments(chain, budget)|
    ensures i < |chain|
    ensures PathSegments(chain, budget)[|PathSegments(chain, budget)| - 1 - i] == Segment(chain[i])
    ensures i < |PathSegments(chain, budget)| - 1 ==> chain[i].id == ""
  {
    var segs := PathSegments(chain, budget);
    if chain[0].id != "" {
      assert segs == [IdSegment(chain[0])];
      assert i == 0 && Segment(chain[0]) == IdSegment(chain[0]);
    } else {
      var rest := PathSegments(chain[1..], budget - 1);
      assert segs == rest + [PlainSegment(chain[0])];
      if i == 0 {
        assert Segment(chain[0]) == PlainSegment(chain[0]);
        assert segs[|segs| - 1] == PlainSegment(chain[0]);
      } else {
        PathSegmentsAt(chain[1..], budget - 1, i - 1);
        var step := chain[1..][i - 1];
        assert step == chain[i];
        assert segs[|segs| - 1 - i] == rest[|rest| - 1 - (i - 1)];
        assert rest[|rest| - 1 - (i - 1)] == Segment(step);
      }
    }
  }

  /**
   * When the walk stops short of both the segment limit and the top of the
   * tree, the last element it reached has an id.
   */
  lemma {:induction false} PathSegmentsStop(chain: seq<Step>, budget: nat)
    requires 0 < |PathSegments(chain, budget)| < |chain|
    requires |PathSegments(chain, budget)| < budget
    ensures chain[|PathSegments(chain, budget)| - 1].id != ""
  {
    if chain[0].id == "" {
      var rest := PathSegments(chain[1..], budget - 1);
      assert PathSegments(chain, budget) == rest + [PlainSegment(chain[0])];
      PathSegmentsLength(chain[1..], budget - 1);
      PathSegmentsStop(chain[1..], budget - 1);
      assert chain[1..][|rest| - 1] == chain[|rest|];
    }
  }

  /** An element with an id is selected by its id alone. */
  lemma IdSelector(chain: seq<Step>)
    requires chain != [] && chain[0].id != ""
    ensures CssSelector(chain) == "#" + chain[0].id
  {
  }

  /**
   * The inner loop of `getCSSSelector`: follows `previousElementSibling`
   * from the current element, counting the siblings with its tag name.
   */
  method SiblingPosition(current: Step) returns (nth: nat)
    ensures nth == NthOfType(current)
    ensures nth >= 1
  {
    nth := 1;
    var j := 0;
    while j < |current.before|
      invariant 0 <= j <= |current.before|
      invariant nth == 1 + CountTag(current.before[..j], current.tag)
    {
      assert current.before[..j + 1][..j] == current.before[..j];
      if current.before[j] == current.tag {
        nth := nth + 1;
      }
      j := j + 1;
    }
    assert current.before[..j] == current.before;
  }

  /** The segment of an ancestor without an id: its tag, with `:nth-of-type(k)` added when k > 1. */
  method PlainSegmentOf(current: Step) returns (segment: string)
    ensures segment == PlainSegment(current)
  {
    segment := Lower(current.tag);
    var nth := SiblingPosition(current);
    if nth > 1 {
      segment := segment + ":nth-of-type(" + Decimal(nth) + ")";
    } else {
      assert segment == Lower(current.tag) + "";
    }
  }

  /**
   * `getCSSSelector(element)`.  `chain` is the element's ancestor chain:
   * `chain[0]` the element, each next entry the `parentElement` of the one
   * before.  The outer loop walks up the chain, the inner one walks the
   * `previousElementSibling` list of the current element.
   */
  method GetCssSelector(chain: seq<Step>) returns (selector: string)
    requires chain != []
    ensures selector == CssSelector(chain)
    ensures chain[0].id != "" ==> selector == "#" + chain[0].id
  {
    if chain[0].id != "" {
      return "#" + chain[0].id;
    }
    var path: seq<string> := [];
    var k := 0;
    while k < |chain|
      invariant 0 <= k <= |chain| && k < MaxSegments && |path| == k
      invariant PathSegments(chain, MaxSegments) == PathSegments(chain[k..], MaxSegments - k) + path
      decreases |chain| - k
    {
      var current := chain[k];
      var segment := Lower(current.tag);
      if current.id != "" {
        segment := segment + "#" + current.id;
        assert segment == IdSegment(current);
        PathSegmentsIdStep(chain, k, MaxSegments - k);
        path := [segment] + path;
        break;
      }
      segment := PlainSegmentOf(current);
      ghost var rest := PathSegments(chain[k + 1..], MaxSegments - (k + 1));
      PathSegmentsPlainStep(chain, k, MaxSegments - k);
      AppendTwo(rest, [segment], path);
      path := [segment] + path;
      k := k + 1;
      if |path| > 5 {
        assert MaxSegments - k == 0;
        assert PathSegments(chain, MaxSegments) == [] + path;
        break;
      }
    }
    if k == |chain| {
      assert chain[k..] == [];
    }
    assert PathSegments(chain, MaxSegments) == path;
    selector := JoinWith(path, " > ");
  }

  /** The walk stops at an ancestor with an id, with that ancestor's segment. */
  lemma PathSegmentsIdStep(chain: seq<Step>, k: nat, budget: nat)
    requires k < |chain| && chain[k].id != "" && budget > 0
    ensures PathSegments(chain[k..], budget) == [IdSegment(chain[k])]
  {
    assert chain[k..][0] == chain[k];
  }

  /** From an ancestor without an id, the walk goes on to its parent with one segment less to spend. */
  lemma PathSegmentsPlainStep(chain: seq<Step>, k: nat, budget: nat)
    requires k < |chain| && chain[k].id == "" && budget > 0
    ensures PathSegments(chain[k..], budget) == PathSegments(chain[k + 1..], budget - 1) + [PlainSegment(chain[k])]
  {
    assert chain[k..][0] == chain[k];
    assert chain[k..][1..] == chain[k + 1..];
  }

  /** A two-element chain whose parent has an id and whose element has none: `tag#id > segment`. */
  lemma TwoStepSelector(child: Step, parent: Step)
    requires child.id == "" && parent.id != ""
    ensures CssSelector([child, parent]) == IdSegment(parent) + " > " + PlainSegment(child)
  {
    assert [child, parent][1..] == [parent];
    assert PathSegments([parent], MaxSegments - 1) == [IdSegment(parent)];
    assert PathSegments([child, parent], MaxSegments) == [IdSegment(parent)] + [PlainSegment(child)];
    assert [IdSegment(parent)] + [PlainSegment(child)] == [IdSegment(parent), PlainSegment(child)];
    JoinPair(IdSegment(parent), PlainSegment(child), " > ");
  }

  lemma JoinPair(a: string, b: string, sep: string)
    ensures JoinWith([a, b], sep) == a + sep + b
  {
    assert [a, b][1..] == [b];
  }

  lemma ListSegment()
    ensures IdSegment(Step("UL", "list", [])) == "ul#list"
  {
    assert Lower("UL") == "ul";
  }

  lemma FirstOfTypeSegment()
    ensures PlainSegment(Step("LI", "", [])) == "li"
  {
    assert NthOfType(Step("LI", "", [])) == 1;
    assert Lower("LI") == "li";
  }

  lemma SecondOfTypeSegment()
    ensures PlainSegment(Step("LI", "", ["LI"])) == "li:nth-of-type(2)"
  {
    assert ["LI"][..0] == [];
    assert NthOfType(Step("LI", "", ["LI"])) == 2;
    assert Decimal(2) == "2";
    assert Lower("LI") == "li";
  }

  /** The first `li` child of `<ul id="list">` gets `ul#list > li`. */
  lemma FirstListItemExample()
    ensures CssSelector([Step("LI", "", []), Step("UL", "list", [])]) == "ul#list > li"
  {
    TwoStepSelector(Step("LI", "", []), Step("UL", "list", []));
    ListSegment();
    FirstOfTypeSegment();
  }

  /** The second `li` child of `<ul id="list">` gets `ul#list > li:nth-of-type(2)`. */
  lemma SecondListItemExample()
    ensures CssSelector([Step("LI", "", ["LI"]), Step("UL", "list", [])]) == "ul#list > li:nth-of-type(2)"
  {
    TwoStepSelector(Step("LI", "", ["LI"]), Step("UL", "list", []));
    ListSegment();
    SecondOfTypeSegment();
  }
}
