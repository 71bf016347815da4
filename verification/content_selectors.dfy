/**
 * `generateSelectors` of the content script: the ordered list of candidate
 * selectors of an element.  Each step adds at most one entry (the input
 * step at most three), in a fixed order: data-testid, id, role, aria-label,
 * input name / type / placeholder, button or link text, first stable class;
 * the structural selector of `getCSSSelector` always comes last.  Nothing is
 * de-duplicated, and attribute values are inserted without escaping.
 */
module ContentSelectors {
  import opened Optional
  import opened Strings
  import opened Dom
  import opened CssPath

  /** Names and texts of this many UTF-16 code units or more are not used in a selector. */
  const MaxNameLength: nat := 50

  function TestIdEntry(e: Element): seq<string> {
    var v := Attr(e, "data-testid");
    if Truthy(v) then ["[data-testid=\"" + v.value + "\"]"] else []
  }

  function IdEntry(e: Element): seq<string> {
    if Id(e) != "" then ["#" + Id(e)] else []
  }

  /** The name a role entry pairs with the role: the aria-label, or else the trimmed text. */
  function RoleName(e: Element): string {
    var aria := Attr(e, "aria-label");
    if Truthy(aria) then aria.value else Trim(e.text)
  }

  function RoleEntry(e: Element): seq<string> {
    var role := Attr(e, "role");
    if !Truthy(role) then []
    else if RoleName(e) != "" && Length(RoleName(e)) < MaxNameLength then
      ["[role=\"" + role.value + "\"][aria-label=\"" + RoleName(e) + "\"]"]
    else ["[role=\"" + role.value + "\"]"]
  }

  function AriaLabelEntry(e: Element): seq<string> {
    var aria := Attr(e, "aria-label");
    if Truthy(aria) then ["[aria-label=\"" + aria.value + "\"]"] else []
  }

  function InputAttrEntry(e: Element, name: string): seq<string> {
    var v := Attr(e, name);
    if Truthy(v) then ["input[" + name + "=\"" + v.value + "\"]"] else []
  }

  function InputEntries(e: Element): seq<string> {
    if Lower(e.tag) == "input" then
      InputAttrEntry(e, "name") + InputAttrEntry(e, "type") + InputAttrEntry(e, "placeholder")
    else []
  }

  lemma InputPrefixes()
    ensures "input[" + "name" + "=\"" == "input[name=\""
    ensures "input[" + "type" + "=\"" == "input[type=\""
    ensures "input[" + "placeholder" + "=\"" == "input[placeholder=\""
  {
  }

  /** Buttons and links with a (raw) text whose trimmed form is short: `tag:has-text("text")`. */
  function TextEntry(e: Element): seq<string> {
    var tag := Lower(e.tag);
    if (tag == "button" || tag == "a") && e.text != "" && Length(Trim(e.text)) < MaxNameLength then
      [tag + ":has-text(\"" + Trim(e.text) + "\")"]
    else []
  }

  /**
   * A button whose trimmed text is 25 characters outside the Basic
   * Multilingual Plane has a text 50 code units long, so it gets no text
   * entry although it has fewer than 50 characters.
   */
  lemma AstralTextNotUsed(e: Element)
    requires Lower(e.tag) == "button" && |Trim(e.text)| == 25
    requires forall k :: 0 <= k < |Trim(e.text)| ==> Units(Trim(e.text)[k]) == 2
    ensures TextEntry(e) == []
  {
    LengthAstral(Trim(e.text));
  }

  /** A class token that looks stable: longer than three code units and without a hyphen. */
  predicate StableClass(c: string) {
    |c| > 0 && '-' !in c && Length(c) > 3
  }

  function ClassEntry(e: Element): seq<string> {
    match e.className
    case ClassObject => []
    case ClassText(s) =>
      if s == "" then []
      else
        var classes := Filter(SplitOnSpace(s), StableClass);
        if |classes| > 0 then ["." + classes[0]] else []
  }

  /** The entries derived from attributes, text and class, in priority order. */
  function AttributeEntries(e: Element): seq<string> {
    TestIdEntry(e) + IdEntry(e) + RoleEntry(e) + AriaLabelEntry(e)
    + InputEntries(e) + TextEntry(e) + ClassEntry(e)
  }

  /** The list `generateSelectors` returns for an element with ancestor chain `chain`. */
  function Selectors(e: Element, chain: seq<Step>): (r: seq<string>)
    requires chain != []
    ensures |r| >= 1 && r[|r| - 1] == CssSelector(chain)
    ensures r[..|r| - 1] == AttributeEntries(e)
  {
    AttributeEntries(e) + [CssSelector(chain)]
  }

  /** The first four steps of `generateSelectors`: data-testid, id, role and aria-label. */
  method LeadingSelectors(e: Element) returns (selectors: seq<string>)
    ensures selectors == TestIdEntry(e) + IdEntry(e) + RoleEntry(e) + AriaLabelEntry(e)
  {
    selectors := [];
    var testId := Attr(e, "data-testid");
    if Truthy(testId) {
      selectors := selectors + ["[data-testid=\"" + testId.value + "\"]"];
    }
    assert selectors == TestIdEntry(e);
    if Id(e) != "" {
      selectors := selectors + ["#" + Id(e)];
    }
    assert selectors == TestIdEntry(e) + IdEntry(e);
    selectors := PushRoleSelector(e, selectors);
    ghost var withRole := selectors;
    var ariaLabel := Attr(e, "aria-label");
    if Truthy(ariaLabel) {
      selectors := selectors + ["[aria-label=\"" + ariaLabel.value + "\"]"];
    }
    assert selectors == withRole + AriaLabelEntry(e);
  }

  /** The role step: the role, paired with the aria-label or the trimmed text when that name is short. */
  method PushRoleSelector(e: Element, before: seq<string>) returns (selectors: seq<string>)
    ensures selectors == before + RoleEntry(e)
  {
    selectors := before;
    var role := Attr(e, "role");
    if Truthy(role) {
      var aria := Attr(e, "aria-label");
      var name := if Truthy(aria) then aria.value else Trim(e.text);
      assert name == RoleName(e);
      if name != "" && Length(name) < MaxNameLength {
        selectors := selectors + ["[role=\"" + role.value + "\"][aria-label=\"" + name + "\"]"];
      } else {
        selectors := selectors + ["[role=\"" + role.value + "\"]"];
      }
    }
  }

  /** The input step of `generateSelectors`: name, type and placeholder, in this order. */
  method PushInputSelectors(e: Element, tag: string, before: seq<string>) returns (selectors: seq<string>)
    requires tag == Lower(e.tag)
    ensures selectors == before + InputEntries(e)
  {
    selectors := before;
    if tag != "input" {
      return;
    }
    InputPrefixes();
    var name := Attr(e, "name");
    if Truthy(name) {
      selectors := selectors + ["input[name=\"" + name.value + "\"]"];
    }
    ghost var afterName := selectors;
    assert afterName == before + InputAttrEntry(e, "name");
    var inputType := Attr(e, "type");
    if Truthy(inputType) {
      selectors := selectors + ["input[type=\"" + inputType.value + "\"]"];
    }
    ghost var afterType := selectors;
    assert afterType == afterName + InputAttrEntry(e, "type");
    var placeholder := Attr(e, "placeholder");
    if Truthy(placeholder) {
      selectors := selectors + ["input[placeholder=\"" + placeholder.value + "\"]"];
    }
    assert selectors == afterType + InputAttrEntry(e, "placeholder");
    assert InputEntries(e) == InputAttrEntry(e, "name") + InputAttrEntry(e, "type") + InputAttrEntry(e, "placeholder");
    AppendThree(before, InputAttrEntry(e, "name"), InputAttrEntry(e, "type"), InputAttrEntry(e, "placeholder"));
  }

  /** The text step: buttons and links with a short trimmed text. */
  method PushTextSelector(e: Element, tag: string, before: seq<string>) returns (selectors: seq<string>)
    requires tag == Lower(e.tag)
    ensures selectors == before + TextEntry(e)
  {
    selectors := before;
    if (tag == "button" || tag == "a") && e.text != "" && Length(Trim(e.text)) < MaxNameLength {
      selectors := selectors + [tag + ":has-text(\"" + Trim(e.text) + "\")"];
    }
  }

  /** The class step: the first stable token of a string className. */
  method PushClassSelector(e: Element, before: seq<string>) returns (selectors: seq<string>)
    ensures selectors == before + ClassEntry(e)
  {
    selectors := before;
    if e.className.ClassText? && e.className.text != "" {
      var classes := Filter(SplitOnSpace(e.className.text), StableClass);
      if |classes| > 0 {
        selectors := selectors + ["." + classes[0]];
      }
    }
  }

  /**
   * `generateSelectors(element)`: pushes the entries one step after the
   * other and finishes with the structural selector.
   */
  method GenerateSelectors(e: Element, chain: seq<Step>) returns (selectors: seq<string>)
    requires chain != []
    ensures selectors == Selectors(e, chain)
    ensures |selectors| >= 1 && selectors[|selectors| - 1] == CssSelector(chain)
  {
    selectors := LeadingSelectors(e);
    ghost var leading := selectors;
    var tag := Lower(e.tag);
    selectors := PushInputSelectors(e, tag, selectors);
    selectors := PushTextSelector(e, tag, selectors);
    selectors := PushClassSelector(e, selectors);
    AppendThree(leading, InputEntries(e), TextEntry(e), ClassEntry(e));
    var fallback := GetCssSelector(chain);
    selectors := selectors + [fallback];
  }

  /**
   * The kind of a candidate selector, read from its leading characters:
   * 1 data-testid, 2 id, 3 role, 4 aria-label, 5 input name, 6 input type,
   * 7 input placeholder, 8 button or link text, 9 class, and 0 for anything else.
   */
  function EntryKind(s: string): nat {
    if s == [] then 0
    else if s[0] == '[' && |s| > 1 then
      (if s[1] == 'd' then 1 else if s[1] == 'r' then 3 else if s[1] == 'a' then 4 else 0)
    else if s[0] == '#' then 2
    else if s[0] == 'i' && |s| > 6 then
      (if s[6] == 'n' then 5 else if s[6] == 't' then 6 else if s[6] == 'p' then 7 else 0)
    else if s[0] == 'b' || s[0] == 'a' then 8
    else if s[0] == '.' then 9
    else 0
  }

  /** Every entry has a kind between `lo` and `hi`, and the kinds strictly increase along the list. */
  predicate Ranked(xs: seq<string>, lo: nat, hi: nat) {
    (forall i :: 0 <= i < |xs| ==> lo <= EntryKind(xs[i]) <= hi)
    && (forall i, j :: 0 <= i < j < |xs| ==> EntryKind(xs[i]) < EntryKind(xs[j]))
  }

  lemma RankedAppend(xs: seq<string>, ys: seq<string>, lo: nat, mid: nat, hi: nat)
    requires lo <= mid < hi && Ranked(xs, lo, mid) && Ranked(ys, mid + 1, hi)
    ensures Ranked(xs + ys, lo, hi)
  {
    var zs := xs + ys;
    forall i, j | 0 <= i < j < |zs| ensures EntryKind(zs[i]) < EntryKind(zs[j]) {
      if j < |xs| {
        assert zs[i] == xs[i] && zs[j] == xs[j];
      } else if i < |xs| {
        assert zs[i] == xs[i] && zs[j] == ys[j - |xs|];
      } else {
        assert zs[i] == ys[i - |xs|] && zs[j] == ys[j - |xs|];
      }
    }
    forall i | 0 <= i < |zs| ensures lo <= EntryKind(zs[i]) <= hi {
      if i < |xs| {
        assert zs[i] == xs[i];
      } else {
        assert zs[i] == ys[i - |xs|];
      }
    }
  }

  /** A list of at most one entry, of kind `k`. */
  lemma RankedSingle(xs: seq<string>, k: nat)
    requires |xs| <= 1 && forall x :: x in xs ==> EntryKind(x) == k
    ensures Ranked(xs, k, k)
  {
    if |xs| == 1 {
      assert xs[0] in xs;
    }
  }

  lemma TestIdEntryKind(e: Element)
    ensures |TestIdEntry(e)| <= 1 && Ranked(TestIdEntry(e), 1, 1)
  {
    var v := Attr(e, "data-testid");
    if Truthy(v) {
      var s := "[data-testid=\"" + v.value + "\"]";
      assert s[0] == '[' && s[1] == 'd';
      assert TestIdEntry(e) == [s];
    }
    RankedSingle(TestIdEntry(e), 1);
  }

  lemma IdEntryKind(e: Element)
    ensures |IdEntry(e)| <= 1 && Ranked(IdEntry(e), 2, 2)
  {
    if Id(e) != "" {
      assert ("#" + Id(e))[0] == '#';
    }
    RankedSingle(IdEntry(e), 2);
  }

  lemma RoleEntryKind(e: Element)
    ensures |RoleEntry(e)| <= 1 && Ranked(RoleEntry(e), 3, 3)
  {
    var role := Attr(e, "role");
    if Truthy(role) {
      var s := RoleEntry(e)[0];
      assert s[0] == '[' && s[1] == 'r';
    }
    RankedSingle(RoleEntry(e), 3);
  }

  lemma AriaLabelEntryKind(e: Element)
    ensures |AriaLabelEntry(e)| <= 1 && Ranked(AriaLabelEntry(e), 4, 4)
  {
    var aria := Attr(e, "aria-label");
    if Truthy(aria) {
      var s := "[aria-label=\"" + aria.value + "\"]";
      assert s[0] == '[' && s[1] == 'a';
      assert AriaLabelEntry(e) == [s];
    }
    RankedSingle(AriaLabelEntry(e), 4);
  }

  /** One input attribute entry: at most one entry, of its own kind, present exactly when the attribute is non-empty. */
  lemma InputAttrEntryKind(e: Element, name: string, k: nat)
    requires (name == "name" && k == 5) || (name == "type" && k == 6) || (name == "placeholder" && k == 7)
    ensures |InputAttrEntry(e, name)| <= 1 && Ranked(InputAttrEntry(e, name), k, k)
    ensures HasKind(InputAttrEntry(e, name), k) <==> Truthy(Attr(e, name))
  {
    var xs := InputAttrEntry(e, name);
    if xs != [] {
      var s := xs[0];
      assert s[0] == 'i' && s[6] == name[0];
      assert EntryKind(s) == k;
    }
    RankedSingle(xs, k);
    HasKindBand(xs, k, k, k);
  }

  lemma InputEntriesKind(e: Element)
    ensures |InputEntries(e)| <= 3 && Ranked(InputEntries(e), 5, 7)
  {
    if Lower(e.tag) == "input" {
      var name := InputAttrEntry(e, "name");
      var kind := InputAttrEntry(e, "type");
      var placeholder := InputAttrEntry(e, "placeholder");
      InputAttrEntryKind(e, "name", 5);
      InputAttrEntryKind(e, "type", 6);
      InputAttrEntryKind(e, "placeholder", 7);
      RankedAppend(name, kind, 5, 5, 6);
      RankedAppend(name + kind, placeholder, 5, 6, 7);
    }
  }

  lemma TextEntryKind(e: Element)
    ensures |TextEntry(e)| <= 1 && Ranked(TextEntry(e), 8, 8)
  {
    if TextEntry(e) != [] {
      var tag := Lower(e.tag);
      var s := tag + ":has-text(\"" + Trim(e.text) + "\")";
      assert TextEntry(e) == [s];
      assert tag == "button" || tag == "a";
      assert s[0] == tag[0];
    }
    RankedSingle(TextEntry(e), 8);
  }

  lemma ClassEntryKind(e: Element)
    ensures |ClassEntry(e)| <= 1 && Ranked(ClassEntry(e), 9, 9)
  {
    if ClassEntry(e) != [] {
      assert ClassEntry(e)[0][0] == '.';
    }
    RankedSingle(ClassEntry(e), 9);
  }

  /**
   * The attribute-derived entries come in the fixed order data-testid, id,
   * role, aria-label, input name, type and placeholder, text, class: their
   * kinds strictly increase, so no kind appears twice and there are at most nine.
   */
  lemma AttributeEntriesOrdered(e: Element)
    ensures Ranked(AttributeEntries(e), 1, 9)
    ensures |AttributeEntries(e)| <= 9
  {
    TestIdEntryKind(e);
    IdEntryKind(e);
    RoleEntryKind(e);
    AriaLabelEntryKind(e);
    InputEntriesKind(e);
    TextEntryKind(e);
    ClassEntryKind(e);
    var a := TestIdEntry(e);
    var b := a + IdEntry(e);
    var c := b + RoleEntry(e);
    var d := c + AriaLabelEntry(e);
    var f := d + InputEntries(e);
    var g := f + TextEntry(e);
    RankedAppend(a, IdEntry(e), 1, 1, 2);
    RankedAppend(b, RoleEntry(e), 1, 2, 3);
    RankedAppend(c, AriaLabelEntry(e), 1, 3, 4);
    RankedAppend(d, InputEntries(e), 1, 4, 7);
    RankedAppend(f, TextEntry(e), 1, 7, 8);
    RankedAppend(g, ClassEntry(e), 1, 8, 9);
  }

  /** Some entry of `xs` has kind `k`. */
  predicate HasKind(xs: seq<string>, k: nat) {
    exists i :: 0 <= i < |xs| && EntryKind(xs[i]) == k
  }

  lemma HasKindAppend(xs: seq<string>, ys: seq<string>, k: nat)
    ensures HasKind(xs + ys, k) <==> HasKind(xs, k) || HasKind(ys, k)
  {
    var zs := xs + ys;
    if HasKind(zs, k) {
      var i :| 0 <= i < |zs| && EntryKind(zs[i]) == k;
      if i < |xs| {
        assert zs[i] == xs[i];
      } else {
        assert zs[i] == ys[i - |xs|];
      }
    }
    if HasKind(xs, k) {
      var i :| 0 <= i < |xs| && EntryKind(xs[i]) == k;
      assert zs[i] == xs[i];
    }
    if HasKind(ys, k) {
      var i :| 0 <= i < |ys| && EntryKind(ys[i]) == k;
      assert zs[|xs| + i] == ys[i];
    }
  }

  /** A list ranked in a band has a kind exactly when it has an entry of that kind inside the band. */
  lemma HasKindBand(xs: seq<string>, lo: nat, hi: nat, k: nat)
    requires Ranked(xs, lo, hi)
    ensures HasKind(xs, k) ==> lo <= k <= hi
    ensures lo == hi == k ==> (HasKind(xs, k) <==> xs != [])
  {
    if lo == hi == k && xs != [] {
      assert EntryKind(xs[0]) == k;
    }
  }

  /** Which group of `AttributeEntries` an entry of a given kind can come from. */
  lemma HasKindGroups(e: Element, k: nat)
    ensures HasKind(AttributeEntries(e), k) <==>
      HasKind(TestIdEntry(e), k) || HasKind(IdEntry(e), k) || HasKind(RoleEntry(e), k)
      || HasKind(AriaLabelEntry(e), k) || HasKind(InputEntries(e), k)
      || HasKind(TextEntry(e), k) || HasKind(ClassEntry(e), k)
  {
    var a := TestIdEntry(e);
    var b := a + IdEntry(e);
    var c := b + RoleEntry(e);
    var d := c + AriaLabelEntry(e);
    var f := d + InputEntries(e);
    var g := f + TextEntry(e);
    HasKindAppend(a, IdEntry(e), k);
    HasKindAppend(b, RoleEntry(e), k);
    HasKindAppend(c, AriaLabelEntry(e), k);
    HasKindAppend(d, InputEntries(e), k);
    HasKindAppend(f, TextEntry(e), k);
    HasKindAppend(g, ClassEntry(e), k);
  }

  /** Which kinds an element's entries have: each step adds its entry exactly when its condition holds. */
  lemma EntryPresence(e: Element, k: nat)
    ensures k == 1 ==> (HasKind(AttributeEntries(e), k) <==> Truthy(Attr(e, "data-testid")))
    ensures k == 2 ==> (HasKind(AttributeEntries(e), k) <==> Id(e) != "")
    ensures k == 3 ==> (HasKind(AttributeEntries(e), k) <==> Truthy(Attr(e, "role")))
    ensures k == 4 ==> (HasKind(AttributeEntries(e), k) <==> Truthy(Attr(e, "aria-label")))
    ensures k == 8 ==> (HasKind(AttributeEntries(e), k) <==>
      (Lower(e.tag) == "button" || Lower(e.tag) == "a") && e.text != "" && Length(Trim(e.text)) < MaxNameLength)
    ensures k == 9 ==> (HasKind(AttributeEntries(e), k) <==> ClassEntry(e) != [])
    ensures k == 9 && e.className.ClassObject? ==> !HasKind(AttributeEntries(e), k)
    ensures !(1 <= k <= 9) ==> !HasKind(AttributeEntries(e), k)
  {
    HasKindGroups(e, k);
    TestIdEntryKind(e);
    IdEntryKind(e);
    RoleEntryKind(e);
    AriaLabelEntryKind(e);
    InputEntriesKind(e);
    TextEntryKind(e);
    ClassEntryKind(e);
    HasKindBand(TestIdEntry(e), 1, 1, k);
    HasKindBand(IdEntry(e), 2, 2, k);
    HasKindBand(RoleEntry(e), 3, 3, k);
    HasKindBand(AriaLabelEntry(e), 4, 4, k);
    HasKindBand(InputEntries(e), 5, 7, k);
    HasKindBand(TextEntry(e), 8, 8, k);
    HasKindBand(ClassEntry(e), 9, 9, k);
  }

  /** Kinds 5 to 7 can only come from the input step. */
  lemma InputGroupOnly(e: Element, k: nat)
    requires 5 <= k <= 7
    ensures HasKind(AttributeEntries(e), k) <==> HasKind(InputEntries(e), k)
  {
    HasKindGroups(e, k);
    TestIdEntryKind(e);
    IdEntryKind(e);
    RoleEntryKind(e);
    AriaLabelEntryKind(e);
    TextEntryKind(e);
    ClassEntryKind(e);
    HasKindBand(TestIdEntry(e), 1, 1, k);
    HasKindBand(IdEntry(e), 2, 2, k);
    HasKindBand(RoleEntry(e), 3, 3, k);
    HasKindBand(AriaLabelEntry(e), 4, 4, k);
    HasKindBand(TextEntry(e), 8, 8, k);
    HasKindBand(ClassEntry(e), 9, 9, k);
  }

  /** The input step yields an entry of the kind of an attribute exactly for an `input` with that attribute non-empty. */
  lemma InputEntriesHasKind(e: Element, name: string, k: nat)
    requires (name == "name" && k == 5) || (name == "type" && k == 6) || (name == "placeholder" && k == 7)
    ensures HasKind(InputEntries(e), k) <==> Lower(e.tag) == "input" && Truthy(Attr(e, name))
  {
    if Lower(e.tag) == "input" {
      var a := InputAttrEntry(e, "name");
      var b := InputAttrEntry(e, "type");
      var c := InputAttrEntry(e, "placeholder");
      InputAttrEntryKind(e, "name", 5);
      InputAttrEntryKind(e, "type", 6);
      InputAttrEntryKind(e, "placeholder", 7);
      HasKindAppend(a, b, k);
      HasKindAppend(a + b, c, k);
      HasKindBand(a, 5, 5, k);
      HasKindBand(b, 6, 6, k);
      HasKindBand(c, 7, 7, k);
    }
  }

  /**
   * Only `input` elements get the name, type and placeholder entries, each
   * exactly when its attribute is non-empty.
   */
  lemma InputEntryPresence(e: Element)
    ensures HasKind(AttributeEntries(e), 5) <==> Lower(e.tag) == "input" && Truthy(Attr(e, "name"))
    ensures HasKind(AttributeEntries(e), 6) <==> Lower(e.tag) == "input" && Truthy(Attr(e, "type"))
    ensures HasKind(AttributeEntries(e), 7) <==> Lower(e.tag) == "input" && Truthy(Attr(e, "placeholder"))
  {
    InputGroupOnly(e, 5);
    InputGroupOnly(e, 6);
    InputGroupOnly(e, 7);
    InputEntriesHasKind(e, "name", 5);
    InputEntriesHasKind(e, "type", 6);
    InputEntriesHasKind(e, "placeholder", 7);
  }

  /**
   * The role entry: with a non-empty role r, the name n is the aria-label,
   * or the trimmed text when the aria-label is empty; the entry pairs r with
   * n when n is non-empty and shorter than 50, and is the bare role otherwise.
   * It is the only entry of its kind.
   */
  lemma RoleSelector(e: Element)
    requires Truthy(Attr(e, "role"))
    ensures var r := Attr(e, "role").value;
            var aria := Attr(e, "aria-label");
            var n := if Truthy(aria) then aria.value else Trim(e.text);
            var expected :=
              if n != "" && Length(n) < MaxNameLength then "[role=\"" + r + "\"][aria-label=\"" + n + "\"]"
              else "[role=\"" + r + "\"]";
            expected in AttributeEntries(e)
            && forall i :: 0 <= i < |AttributeEntries(e)| && EntryKind(AttributeEntries(e)[i]) == 3 ==>
                 AttributeEntries(e)[i] == expected
  {
    var a := AttributeEntries(e);
    var expected := RoleEntry(e)[0];
    var k := |TestIdEntry(e) + IdEntry(e)|;
    var p3 := TestIdEntry(e) + IdEntry(e) + RoleEntry(e);
    assert p3[k] == expected;
    var p4 := p3 + AriaLabelEntry(e);
    assert p4[k] == expected;
    var p5 := p4 + InputEntries(e);
    assert p5[k] == expected;
    var p6 := p5 + TextEntry(e);
    assert p6[k] == expected;
    assert a == p6 + ClassEntry(e);
    assert a[k] == expected;
    AttributeEntriesOrdered(e);
    RoleEntryKind(e);
    assert EntryKind(a[k]) == 3;
  }

  /**
   * A button or link whose text is non-empty but only white space gets the
   * text entry with an empty string: the raw text passes the test and the
   * trimmed text is empty.
   */
  lemma BlankTextSelector(e: Element)
    requires Lower(e.tag) == "button" || Lower(e.tag) == "a"
    requires e.text != [] && forall k :: 0 <= k < |e.text| ==> IsWhite(e.text[k])
    ensures Lower(e.tag) + ":has-text(\"\")" in AttributeEntries(e)
  {
    TrimEmptyIffWhite(e.text);
    assert Trim(e.text) == "";
    var entry := Lower(e.tag) + ":has-text(\"\")";
    assert Lower(e.tag) + ":has-text(\"" + Trim(e.text) + "\")" == entry;
    assert TextEntry(e) == [entry];
    var p6 := TestIdEntry(e) + IdEntry(e) + RoleEntry(e) + AriaLabelEntry(e) + InputEntries(e) + TextEntry(e);
    assert p6[|p6| - 1] == entry;
    assert AttributeEntries(e)[|p6| - 1] == entry;
  }

  /**
   * The class entry of a string className s is "." followed by the first
   * token of `s.split(" ")` that is stable, and there is none when no token is.
   */
  lemma ClassEntryFirstStable(e: Element, s: string)
    requires e.className == ClassText(s)
    ensures ClassEntry(e) == [] <==> forall i :: 0 <= i < |SplitOnSpace(s)| ==> !StableClass(SplitOnSpace(s)[i])
    ensures forall i :: 0 <= i < |SplitOnSpace(s)| && StableClass(SplitOnSpace(s)[i])
                        && (forall j :: 0 <= j < i ==> !StableClass(SplitOnSpace(s)[j])) ==>
              ClassEntry(e) == ["." + SplitOnSpace(s)[i]]
  {
    var parts := SplitOnSpace(s);
    var classes := Filter(parts, StableClass);
    FilterHead(parts, StableClass);
    if s == "" {
      assert parts == [""];
      assert !StableClass(parts[0]);
    }
    if classes != [] {
      forall i | 0 <= i < |parts| && StableClass(parts[i]) && (forall j :: 0 <= j < i ==> !StableClass(parts[j]))
        ensures ClassEntry(e) == ["." + parts[i]]
      {
        var i0 :| 0 <= i0 < |parts| && parts[i0] == classes[0] && StableClass(parts[i0])
                  && forall j :: 0 <= j < i0 ==> !StableClass(parts[j]);
        assert i == i0;
      }
    }
  }

  /** The class entry, when there is one, is the last attribute-derived entry. */
  lemma ClassEntryLast(e: Element)
    ensures ClassEntry(e) != [] ==> AttributeEntries(e)[|AttributeEntries(e)| - 1] == ClassEntry(e)[0]
  {
    var p6 := TestIdEntry(e) + IdEntry(e) + RoleEntry(e) + AriaLabelEntry(e) + InputEntries(e) + TextEntry(e);
    assert AttributeEntries(e) == p6 + ClassEntry(e);
  }

  /**
   * Nothing is de-duplicated: an element with an id gets `#id` from the id
   * step and again as the structural fallback.
   */
  lemma IdSelectorTwice(e: Element, chain: seq<Step>)
    requires chain != [] && chain[0].id == Id(e) && Id(e) != ""
    ensures var s := Selectors(e, chain);
            |TestIdEntry(e)| < |s| - 1
            && s[|TestIdEntry(e)|] == "#" + Id(e) && s[|s| - 1] == "#" + Id(e)
  {
    var s := Selectors(e, chain);
    var k := |TestIdEntry(e)|;
    IdSelector(chain);
    var p2 := TestIdEntry(e) + IdEntry(e);
    assert p2[k] == "#" + Id(e);
    var p3 := p2 + RoleEntry(e);
    assert p3[k] == "#" + Id(e);
    var p4 := p3 + AriaLabelEntry(e);
    assert p4[k] == "#" + Id(e);
    var p5 := p4 + InputEntries(e);
    assert p5[k] == "#" + Id(e);
    var p6 := p5 + TextEntry(e);
    assert p6[k] == "#" + Id(e);
    var p7 := p6 + ClassEntry(e);
    assert p7 == AttributeEntries(e);
    assert p7[k] == "#" + Id(e);
    assert s == p7 + [CssSelector(chain)];
  }

  /** The text entry of `<button>Go</button>`. */
  lemma GoButtonTextEntry(e: Element)
    requires e.tag == "BUTTON" && e.text == "Go"
    ensures TextEntry(e) == ["button:has-text(\"Go\")"]
  {
    ButtonTag(e);
    TrimmedAlready(e.text);
    GoTextSelector();
    var tag := Lower(e.tag);
    assert tag + ":has-text(\"" + Trim(e.text) + "\")" == "button:has-text(\"Go\")";
  }

  lemma ButtonTag(e: Element)
    requires e.tag == "BUTTON"
    ensures Lower(e.tag) == "button"
  {
  }

  lemma GoTextSelector()
    ensures "button" + ":has-text(\"" + "Go" + "\")" == "button:has-text(\"Go\")"
  {
  }

  /** The data-testid and id entries of an element whose only attributes are `id="submit"` and `data-testid="submit-btn"`. */
  lemma SubmitAttributeEntries(e: Element)
    requires e.attrs == map["id" := "submit", "data-testid" := "submit-btn"]
    ensures TestIdEntry(e) == ["[data-testid=\"submit-btn\"]"] && IdEntry(e) == ["#submit"]
    ensures RoleEntry(e) == [] && AriaLabelEntry(e) == []
  {
    assert "data-testid" in e.attrs && e.attrs["data-testid"] == "submit-btn";
    assert "[data-testid=\"" + "submit-btn" + "\"]" == "[data-testid=\"submit-btn\"]";
    assert Id(e) == "submit";
    assert "#" + "submit" == "#submit";
  }

  /**
   * `<button id="submit" data-testid="submit-btn">Go</button>`: the
   * data-testid entry comes first, then the id, then the text entry, and the
   * fallback is the id again.
   */
  lemma SubmitButtonSelectors(e: Element, chain: seq<Step>)
    requires e.tag == "BUTTON" && e.attrs == map["id" := "submit", "data-testid" := "submit-btn"]
    requires e.text == "Go" && e.className == ClassText("")
    requires chain != [] && chain[0].id == "submit"
    ensures Selectors(e, chain)
            == ["[data-testid=\"submit-btn\"]", "#submit", "button:has-text(\"Go\")", "#submit"]
  {
    SubmitAttributeEntries(e);
    GoButtonTextEntry(e);
    assert InputEntries(e) == [] by {
      assert Lower(e.tag) == "button";
    }
    assert ClassEntry(e) == [];
    IdSelector(chain);
    assert CssSelector(chain) == "#submit";
  }
}
