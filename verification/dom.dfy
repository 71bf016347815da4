/**
 * The page as the scanners see it.  An element carries its tag name as the
 * DOM reports it (upper case for HTML elements), its attributes, its
 * `className` property, its `textContent`, whether an inline click handler
 * is set, the layout box and computed style the visibility test reads, its
 * element children, the element children of its open shadow root (what
 * `element.shadowRoot` exposes) and, for an `iframe`, what reading
 * `contentDocument` gives.
 */
module Dom {
  import opened Optional
  import opened Strings

  /** `element.className`: a string for HTML elements, an object for SVG ones. */
  datatype ClassName = ClassText(text: string) | ClassObject

  /** `getBoundingClientRect()`, in whole pixels. */
  datatype Rect = Rect(x: int, y: int, width: int, height: int)

  /** The two properties of `getComputedStyle` the visibility test reads. */
  datatype Style = Style(visibility: string, display: string)

  /**
   * Reading `iframe.contentDocument`: null, an exception (a cross-origin
   * frame), or the top-level elements of a readable document.
   */
  datatype FrameContent = NoDocument | CrossOrigin | SameOrigin(doc: seq<Element>)

  /**
   * `element.shadowRoot`: null (no shadow root, or a closed one), or the
   * element children of an open shadow root.
   */
  datatype ShadowRoot = NoShadowRoot | ShadowRoot(nodes: seq<Element>)

  datatype Element = Element(
    tag: string,
    attrs: map<string, string>,
    className: ClassName,
    text: string,
    onclick: bool,
    rect: Rect,
    style: Style,
    children: seq<Element>,
    shadowRoot: ShadowRoot,
    content: FrameContent)

  /** Recorded text is cut to this many code units. */
  const MaxTextLength: nat := 100

  /** `element.textContent?.trim().substring(0, 100)`. */
  function RecordedText(e: Element): (r: string)
    ensures Length(r) <= MaxTextLength && |r| <= |Trim(e.text)| && r == Trim(e.text)[..|r|]
    ensures Length(Trim(e.text)) <= MaxTextLength ==> r == Trim(e.text)
    ensures r == "" <==> Trim(e.text) == ""
  {
    Substring(Trim(e.text), MaxTextLength)
  }

  /** `typeof className === "string" ? className : ""`. */
  function ClassString(c: ClassName): string {
    match c
    case ClassText(s) => s
    case ClassObject => ""
  }

  /** `element.getAttribute(name)`. */
  function Attr(e: Element, name: string): (r: Option<string>)
    ensures r.Some? <==> name in e.attrs
    ensures r.Some? ==> r.value == e.attrs[name]
  {
    if name in e.attrs then Some(e.attrs[name]) else None
  }

  /** JavaScript truthiness of an attribute value: present and not "". */
  predicate Truthy(a: Option<string>) {
    a.Some? && a.value != ""
  }

  /** `element.id`: the `id` attribute, or "" when there is none. */
  function Id(e: Element): string {
    if "id" in e.attrs then e.attrs["id"] else ""
  }

  /** Truthiness of `element.className`: a non-empty string, or any object. */
  predicate ClassTruthy(c: ClassName) {
    c.ClassObject? || c.text != ""
  }

  /**
   * The visibility test both scanners apply: a non-empty layout box, and a
   * computed style that neither hides the element nor removes it from layout.
   */
  predicate IsVisible(e: Element) {
    e.rect.width > 0 && e.rect.height > 0
    && e.style.visibility != "hidden" && e.style.display != "none"
  }

  /** The number of elements in a tree, its shadow content included. */
  function Size(e: Element): (n: nat)
    ensures n >= 1 + SizeF(e.children)
    ensures e.shadowRoot.ShadowRoot? ==> n > SizeF(e.shadowRoot.nodes)
  {
    1 + SizeF(e.children) + (if e.shadowRoot.ShadowRoot? then SizeF(e.shadowRoot.nodes) else 0)
  }

  function SizeF(f: seq<Element>): nat
  {
    if f == [] then 0 else Size(f[0]) + SizeF(f[1..])
  }

  /**
   * One element on the way from a node up to the top of its tree: its raw
   * tag name, its id, and the raw tag names of the element siblings before
   * it, nearest first (the `previousElementSibling` chain).
   */
  datatype Step = Step(tag: string, id: string, before: seq<string>)

  /** An ancestor chain is never empty: it starts at the element itself. */
  type Chain = c: seq<Step> | c != [] witness [Step("", "", [])]

  /**
   * An element together with its ancestor chain inside the tree it was
   * found in: `path[0]` describes the element itself, `path[1]` its parent
   * element, and so on up to the element whose `parentElement` is null.
   */
  datatype Located = Located(el: Element, path: Chain)

  /** The chain starts at the element itself. */
  predicate Anchored(l: Located) {
    l.path[0].tag == l.el.tag && l.path[0].id == Id(l.el)
  }
}
