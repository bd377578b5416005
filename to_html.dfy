/** The virtual-tree-to-HTML renderer of `index.js`: `toHTML` dispatches on the kind
    of node; an element becomes its open tag, its content and its close tag.

    The functions below are the specification; `RenderOpenTag` and
    `RenderTagContent` are the loops of `openTag` and `tagContent`, and `Render` is
    `toHTML` wired to them, each proved to compute its specification.

    Two collaborators whose code is not part of this model are parameters, held in
    an `Env`: `createAttribute(name, value, isAttr)` as an arbitrary total function,
    and the `voidElements` table as a set of tag names. */
module VdomToHtml {
  import opened JsValue
  import EscapeHtml

  /** A property mapping in `for…in` order. */
  type Props = seq<(string, Value)>

  /** What `toHTML` may be handed: an element, a text node, or anything else
      (a falsy value, a string, a thunk, a widget, a plain object). */
  datatype Node =
    | VNode(tagName: string, properties: Props, children: seq<Node>)
    | VText(text: string)
    | NotANode

  /** The two collaborators the renderer consults. Where `index.js` calls
      `createAttribute` without a third argument, the callee sees `undefined`;
      the model encodes the omitted argument as `false`. */
  datatype Env = Env(createAttribute: (string, Value, bool) -> string, voidElements: set<string>)

  /** `props[key]`: the value of the first entry named `key`, `undefined` if none. */
  function Lookup(props: Props, key: string): Value {
    if props == [] then Undefined
    else if props[0].0 == key then props[0].1
    else Lookup(props[1..], key)
  }

  /** `Lookup` finds the first entry with the key, and `undefined` when there is none. */
  lemma {:induction false} LookupFirst(props: Props, key: string)
    ensures (forall i :: 0 <= i < |props| ==> props[i].0 != key) ==> Lookup(props, key) == Undefined
    ensures forall i :: 0 <= i < |props| && props[i].0 == key && (forall j :: 0 <= j < i ==> props[j].0 != key) ==>
      Lookup(props, key) == props[i].1
    decreases |props|
  {
    if props != [] {
      var rest := props[1..];
      LookupFirst(rest, key);
      assert forall i :: 0 <= i < |rest| ==> rest[i] == props[i + 1];
    }
  }

  // ---------------------------------------------------------------- openTag

  /** What the `attributes` mapping appends: `" " + createAttribute(k, v, true)` for
      every entry, in order, even when `createAttribute` gives the empty string. */
  function AttributesText(env: Env, entries: Props): (r: string)
    ensures |r| >= |entries|
  {
    if entries == [] then ""
    else
      var (k, v) := entries[|entries| - 1];
      AttributesText(env, entries[..|entries| - 1]) + (" " + env.createAttribute(k, v, true))
  }

  /** The `css` text the `style` loop accumulates: `k + ": " + v + "; "` per entry. */
  function StyleText(entries: Props): string {
    if entries == [] then ""
    else
      var (k, v) := entries[|entries| - 1];
      StyleText(entries[..|entries| - 1]) + (k + ": " + ToJsString(v) + "; ")
  }

  /** The value handed on as the `style` property: `css.trim()`. */
  function StyleValue(entries: Props): string {
    Trim(StyleText(entries))
  }

  /** The value `createAttribute` receives for a property that is neither null nor
      `attributes`: the trimmed CSS text for `style`, the value itself otherwise. */
  function AttrValue(name: string, value: Value): Value {
    if name == "style" then Str(StyleValue(OwnEntries(value))) else value
  }

  /** What one property appends to the open tag. */
  function PropText(env: Env, name: string, value: Value): string {
    if IsNullish(value) then ""
    else if name == "attributes" then AttributesText(env, OwnEntries(value))
    else
      var attr := env.createAttribute(name, AttrValue(name, value), false);
      if attr != "" then " " + attr else ""
  }

  /** What one property contributes is empty or starts with a space, so it never
      runs into the tag name or the previous attribute. A null or undefined property,
      `attributes` and `style` included, contributes nothing; `attributes` contributes
      at least one space per entry; any other property contributes nothing exactly
      when `createAttribute` yields the empty string. */
  lemma PropContribution(env: Env, name: string, value: Value)
    ensures var r := PropText(env, name, value);
      && (r == [] || r[0] == ' ')
      && (IsNullish(value) ==> r == [])
      && (!IsNullish(value) && name == "attributes" ==> |r| >= |OwnEntries(value)|)
      && (!IsNullish(value) && name != "attributes" ==>
            (r == [] <==> env.createAttribute(name, AttrValue(name, value), false) == []))
  {
    if !IsNullish(value) && name == "attributes" && OwnEntries(value) != [] {
      AttributesTextHead(env, OwnEntries(value));
    }
  }

  /** The `attributes` text of a non-empty mapping starts with a space. */
  lemma {:induction false} AttributesTextHead(env: Env, entries: Props)
    requires entries != []
    ensures AttributesText(env, entries)[0] == ' '
    decreases |entries|
  {
    var init := entries[..|entries| - 1];
    var (k, v) := entries[|entries| - 1];
    if init != [] {
      AttributesTextHead(env, init);
    }
  }

  /** What all the properties append to the open tag, in order. */
  function PropsText(env: Env, props: Props): string {
    if props == [] then ""
    else PropsText(env, props[..|props| - 1]) + PropText(env, props[|props| - 1].0, props[|props| - 1].1)
  }

  /** Extending the properties by one entry extends their text by that entry's. */
  lemma PropsTextSnoc(env: Env, props: Props, i: nat)
    requires i < |props|
    ensures PropsText(env, props[..i + 1]) == PropsText(env, props[..i]) + PropText(env, props[i].0, props[i].1)
  {
    assert props[..i + 1][..i] == props[..i];
  }

  /** `openTag(node)`. */
  function OpenTag(env: Env, tagName: string, props: Props): string {
    "<" + tagName + PropsText(env, props) + ">"
  }

  // ------------------------------------------------ toHTML, tagContent, closeTag

  /** `closeTag(node)`. */
  function CloseTag(env: Env, tagName: string): (r: string)
    ensures r == [] <==> tagName in env.voidElements
    ensures r != [] ==> |r| == |tagName| + 3 && r[..2] == "</" && r[2..|r| - 1] == tagName && r[|r| - 1] == '>'
  {
    if tagName in env.voidElements then "" else "</" + tagName + ">"
  }

  /** `toHTML(node)`. */
  function ToHtml(env: Env, node: Node): string
    decreases node, 2
  {
    match node
    case VNode(tagName, props, children) =>
      OpenTag(env, tagName, props) + TagContent(env, props, children) + CloseTag(env, tagName)
    case VText(text) => EscapeHtml.Escape(text)
    case NotANode => ""
  }

  /** `tagContent(node)`: a non-null `innerHTML` verbatim, else the children rendered
      in order. */
  function TagContent(env: Env, props: Props, children: seq<Node>): string
    decreases children, 1
  {
    var innerHtml := Lookup(props, "innerHTML");
    if !IsNullish(innerHtml) then ToJsString(innerHtml) else ChildrenHtml(env, children)
  }

  /** The concatenation of `toHTML(child)` over `children`, in order. */
  function ChildrenHtml(env: Env, children: seq<Node>): string
    decreases children, 0
  {
    if children == [] then ""
    else ChildrenHtml(env, children[..|children| - 1]) + ToHtml(env, children[|children| - 1])
  }

  // ------------------------------------------------------------ the loops

  /** Concatenation is associative. Stated for the solver, which otherwise proves
      each instance by comparing the strings element by element. */
  lemma ConcatAssoc(a: string, b: string, c: string)
    ensures (a + b) + c == a + (b + c)
  {
  }

  /** `openTag(node)`: the `for…in` loop over the properties. */
  method RenderOpenTag(env: Env, tagName: string, props: Props) returns (ret: string)
    ensures ret == OpenTag(env, tagName, props)
  {
    ret := "<" + tagName;
    for i := 0 to |props|
      invariant ret == "<" + tagName + PropsText(env, props[..i])
    {
      PropsTextSnoc(env, props, i);
      ConcatAssoc("<" + tagName, PropsText(env, props[..i]), PropText(env, props[i].0, props[i].1));
      ret := AppendProp(env, ret, props[i].0, props[i].1);
    }
    assert props[..|props|] == props;
    ret := ret + ">";
  }

  /** One pass of `openTag`'s loop body: appends to `ret` what property `name`
      contributes. */
  method AppendProp(env: Env, ret0: string, name: string, value0: Value) returns (ret: string)
    ensures ret == ret0 + PropText(env, name, value0)
  {
    ret := ret0;
    var value := value0;
    if IsNullish(value) {
      return;
    }
    if name == "attributes" {
      ret := AppendAttributes(env, ret, OwnEntries(value));
      return;
    }
    if name == "style" {
      var css := StyleCss(OwnEntries(value));
      value := Str(Trim(css));
    }
    assert value == AttrValue(name, value0);
    var attr := env.createAttribute(name, value, false);
    assert PropText(env, name, value0) == if attr != "" then " " + attr else "";
    if attr != "" {
      ret := ret + (" " + attr);
    }
  }

  /** The inner loop over the `attributes` mapping. */
  method AppendAttributes(env: Env, ret0: string, entries: Props) returns (ret: string)
    ensures ret == ret0 + AttributesText(env, entries)
  {
    ret := ret0;
    for j := 0 to |entries|
      invariant ret == ret0 + AttributesText(env, entries[..j])
    {
      assert entries[..j + 1][..j] == entries[..j];
      ret := ret + (" " + env.createAttribute(entries[j].0, entries[j].1, true));
    }
    assert entries[..|entries|] == entries;
  }

  /** The inner loop over the `style` mapping, accumulating `css`. */
  method StyleCss(entries: Props) returns (css: string)
    ensures css == StyleText(entries)
  {
    css := "";
    for j := 0 to |entries|
      invariant css == StyleText(entries[..j])
    {
      assert entries[..j + 1][..j] == entries[..j];
      css := css + (entries[j].0 + ": " + ToJsString(entries[j].1) + "; ");
    }
    assert entries[..|entries|] == entries;
  }

  /** `tagContent(node)`: `innerHTML` if it is not null, else the indexed loop that
      appends the rendering of each child. */
  method RenderTagContent(env: Env, props: Props, children: seq<Node>) returns (ret: string)
    ensures ret == TagContent(env, props, children)
    decreases children, 1
  {
    var innerHtml := Lookup(props, "innerHTML");
    if !IsNullish(innerHtml) {
      return ToJsString(innerHtml);
    }
    ret := "";
    for i := 0 to |children|
      invariant ret == ChildrenHtml(env, children[..i])
    {
      assert children[..i + 1][..i] == children[..i];
      var child := Render(env, children[i]);
      ret := ret + child;
    }
    assert children[..|children|] == children;
  }

  /** `toHTML(node)`, calling the two loops above. */
  method Render(env: Env, node: Node) returns (html: string)
    ensures html == ToHtml(env, node)
    decreases node, 2
  {
    match node {
      case VNode(tagName, props, children) =>
        var open := RenderOpenTag(env, tagName, props);
        var content := RenderTagContent(env, props, children);
        html := open + content + CloseTag(env, tagName);
      case VText(text) =>
        html := EscapeHtml.Escape(text);
      case NotANode =>
        html := "";
    }
  }

  // ------------------------------------------------------------ properties

  /** Anything that is neither an element nor a text node renders as nothing. */
  lemma NonNodeRendersEmpty(env: Env, node: Node)
    requires !node.VNode? && !node.VText?
    ensures ToHtml(env, node) == ""
  {
  }

  /** A text node renders as its escaped text: no raw `<`, `>`, `"` or `'` survives,
      and decoding the five entities gives the text back. */
  lemma TextRendersEscaped(env: Env, text: string)
    ensures ToHtml(env, VText(text)) == EscapeHtml.Escape(text)
    ensures forall i :: 0 <= i < |ToHtml(env, VText(text))| ==>
      !EscapeHtml.IsMarkupDelimiter(ToHtml(env, VText(text))[i])
    ensures EscapeHtml.Unescape(ToHtml(env, VText(text))) == text
  {
    EscapeHtml.UnescapeEscape(text);
  }

  /** The open tag starts with `<` and the tag name, verbatim, and ends with `>`;
      the tag name is followed by a space or by that `>`. */
  lemma OpenTagShape(env: Env, tagName: string, props: Props)
    ensures var o := OpenTag(env, tagName, props);
      && |o| >= |tagName| + 2 && o[..|tagName| + 1] == "<" + tagName && o[|o| - 1] == '>'
      && (o[|tagName| + 1] == ' ' || o[|tagName| + 1] == '>')
  {
    PropsTextHead(env, props);
  }

  /** The properties' text is empty or starts with a space. */
  lemma {:induction false} PropsTextHead(env: Env, props: Props)
    ensures var r := PropsText(env, props); r == [] || r[0] == ' '
    decreases |props|
  {
    if props != [] {
      var init, last := props[..|props| - 1], props[|props| - 1];
      PropsTextHead(env, init);
      PropContribution(env, last.0, last.1);
    }
  }

  /** An element is its open tag, its content and its close tag. The close tag is
      `</tagName>` unless the tag is void; a void element has none, but its content
      (children included) is still emitted after the open tag. */
  lemma ElementFraming(env: Env, tagName: string, props: Props, children: seq<Node>)
    ensures var r := ToHtml(env, VNode(tagName, props, children));
      && r == OpenTag(env, tagName, props) + TagContent(env, props, children) + CloseTag(env, tagName)
      && |r| >= |tagName| + 2 && r[..|tagName| + 1] == "<" + tagName
      && (tagName in env.voidElements ==> r == OpenTag(env, tagName, props) + TagContent(env, props, children))
      && (tagName !in env.voidElements ==> |r| >= |tagName| + 3 && r[|r| - |tagName| - 3..] == "</" + tagName + ">")
  {
    OpenTagShape(env, tagName, props);
  }

  /** A non-null `innerHTML` is the whole content, coerced to a string and not
      escaped; the children are not visited, so they do not affect the output. */
  lemma InnerHtmlOverridesChildren(env: Env, tagName: string, props: Props, children: seq<Node>, others: seq<Node>)
    requires !IsNullish(Lookup(props, "innerHTML"))
    ensures TagContent(env, props, children) == ToJsString(Lookup(props, "innerHTML"))
    ensures ToHtml(env, VNode(tagName, props, children)) == ToHtml(env, VNode(tagName, props, others))
  {
  }

  /** The test is `!= null`, not truthiness: an `innerHTML` of `""`, `0` or `false`
      still replaces the children, by `""`, `"0"` or `"false"`. */
  lemma FalsyInnerHtmlReplacesChildren(env: Env, props: Props, children: seq<Node>)
    requires Lookup(props, "innerHTML") in {Str(""), Num(0), Bool(false)}
    ensures !IsNullish(Lookup(props, "innerHTML"))
    ensures Lookup(props, "innerHTML") == Str("") ==> TagContent(env, props, children) == ""
    ensures Lookup(props, "innerHTML") == Num(0) ==> TagContent(env, props, children) == "0"
    ensures Lookup(props, "innerHTML") == Bool(false) ==> TagContent(env, props, children) == "false"
    ensures TagContent(env, props, children) == TagContent(env, props, [])
  {
  }

  /** Rendering children is a homomorphism from child sequences to strings. */
  lemma {:induction false} ChildrenAppend(env: Env, a: seq<Node>, b: seq<Node>)
    ensures ChildrenHtml(env, a + b) == ChildrenHtml(env, a) + ChildrenHtml(env, b)
    decreases |b|
  {
    if b == [] {
      assert a + b == a;
    } else {
      var b', last := b[..|b| - 1], b[|b| - 1];
      assert (a + b)[..|a + b| - 1] == a + b';
      assert (a + b)[|a + b| - 1] == last;
      ChildrenAppend(env, a, b');
      ConcatAssoc(ChildrenHtml(env, a), ChildrenHtml(env, b'), ToHtml(env, last));
    }
  }

  /** Without `innerHTML`, an element with no children has empty content, and one
      whose children are `a + b` renders the children of `a` then those of `b`
      between its tags. */
  lemma ChildrenInOrder(env: Env, tagName: string, props: Props, a: seq<Node>, b: seq<Node>)
    requires IsNullish(Lookup(props, "innerHTML"))
    ensures TagContent(env, props, []) == ""
    ensures ToHtml(env, VNode(tagName, props, a + b))
         == OpenTag(env, tagName, props) + ChildrenHtml(env, a) + ChildrenHtml(env, b) + CloseTag(env, tagName)
  {
    assert TagContent(env, props, a + b) == ChildrenHtml(env, a + b);
    ChildrenAppend(env, a, b);
  }

  /** Properties contribute to the open tag one after another. */
  lemma {:induction false} PropsAppend(env: Env, p: Props, q: Props)
    ensures PropsText(env, p + q) == PropsText(env, p) + PropsText(env, q)
    decreases |q|
  {
    if q == [] {
      assert p + q == p;
    } else {
      var q', last := q[..|q| - 1], q[|q| - 1];
      assert (p + q)[..|p + q| - 1] == p + q';
      assert (p + q)[|p + q| - 1] == last;
      PropsAppend(env, p, q');
      ConcatAssoc(PropsText(env, p), PropsText(env, q'), PropText(env, last.0, last.1));
    }
  }

  /** The properties whose value is neither null nor undefined, in order. */
  function NonNullish(props: Props): (r: Props)
    ensures |r| <= |props|
    ensures forall i :: 0 <= i < |r| ==> !IsNullish(r[i].1)
    ensures forall e :: e in r ==> e in props
    ensures forall i :: 0 <= i < |props| && !IsNullish(props[i].1) ==> props[i] in r
  {
    if props == [] then []
    else
      var init := props[..|props| - 1];
      var last := props[|props| - 1];
      assert forall i :: 0 <= i < |init| ==> init[i] == props[i];
      NonNullish(init) + (if IsNullish(last.1) then [] else [last])
  }

  /** Filtering keeps the order of the entries: it works entry by entry, and a
      single entry is kept exactly when its value is neither null nor undefined. */
  lemma {:induction false} NonNullishAppend(p: Props, q: Props)
    ensures NonNullish(p + q) == NonNullish(p) + NonNullish(q)
    ensures |q| == 1 ==> NonNullish(q) == (if IsNullish(q[0].1) then [] else q)
    decreases |q|
  {
    if q == [] {
      assert p + q == p;
    } else {
      var q', last := q[..|q| - 1], q[|q| - 1];
      assert (p + q)[..|p + q| - 1] == p + q';
      assert (p + q)[|p + q| - 1] == last;
      NonNullishAppend(p, q');
      var tail := if IsNullish(last.1) then [] else [last];
      assert NonNullish(p + q) == (NonNullish(p) + NonNullish(q')) + tail;
      assert NonNullish(q) == NonNullish(q') + tail;
      if |q| == 1 {
        assert q' == [];
      }
    }
  }

  /** A null or undefined property leaves no trace wherever it stands: the text of
      `a`, the property, `b` is the text of `a` then `b`. */
  lemma NullPropSkipped(env: Env, a: Props, name: string, value: Value, b: Props)
    requires IsNullish(value)
    ensures PropsText(env, a + [(name, value)] + b) == PropsText(env, a + b)
  {
    var one: Props := [(name, value)];
    PropsAppend(env, a + one, b);
    PropsAppend(env, a, one);
    PropsAppend(env, a, b);
    assert one[..0] == [];
    assert PropsText(env, one) == "" + PropText(env, name, value) == "";
    assert PropsText(env, a + one) == PropsText(env, a);
  }

  /** Null and undefined properties, `attributes` and `style` included, contribute
      nothing: dropping them leaves the open tag unchanged. */
  lemma {:induction false} NullPropsContributeNothing(env: Env, tagName: string, props: Props)
    ensures PropsText(env, NonNullish(props)) == PropsText(env, props)
    ensures OpenTag(env, tagName, NonNullish(props)) == OpenTag(env, tagName, props)
    decreases |props|
  {
    if props != [] {
      var init := props[..|props| - 1];
      var last := props[|props| - 1];
      NullPropsContributeNothing(env, tagName, init);
      assert PropsText(env, props) == PropsText(env, init) + PropText(env, last.0, last.1);
      if IsNullish(last.1) {
        assert NonNullish(props) == NonNullish(init) + [] == NonNullish(init);
        assert PropText(env, last.0, last.1) == "";
      } else {
        PropsAppend(env, NonNullish(init), [last]);
        assert [last][..0] == [];
      }
    }
  }

  /** Each entry `(k, v)` of the `attributes` mapping contributes exactly
      `" " + createAttribute(k, v, true)` at its place in the mapping; the space
      stays even when `createAttribute` yields nothing. */
  lemma AttributesEntry(env: Env, before: Props, k: string, v: Value, after: Props)
    ensures AttributesText(env, before + [(k, v)] + after)
         == AttributesText(env, before) + (" " + env.createAttribute(k, v, true)) + AttributesText(env, after)
  {
    AttributesAppend(env, before + [(k, v)], after);
    assert (before + [(k, v)])[..|before|] == before;
  }

  lemma {:induction false} AttributesAppend(env: Env, a: Props, b: Props)
    ensures AttributesText(env, a + b) == AttributesText(env, a) + AttributesText(env, b)
    decreases |b|
  {
    if b == [] {
      assert a + b == a;
    } else {
      var b', last := b[..|b| - 1], b[|b| - 1];
      assert (a + b)[..|a + b| - 1] == a + b';
      assert (a + b)[|a + b| - 1] == last;
      AttributesAppend(env, a, b');
      ConcatAssoc(AttributesText(env, a), AttributesText(env, b'), " " + env.createAttribute(last.0, last.1, true));
    }
  }

  /** The `style` value is empty exactly when the mapping has no entries; otherwise
      it ends with `;`. Either way it has no white space at its ends. */
  lemma StyleValueShape(entries: Props)
    ensures var r := StyleValue(entries);
      && (r == [] <==> entries == [])
      && (r != [] ==> r[|r| - 1] == ';' && !IsWhiteSpace(r[0]))
  {
    TrimSpec(StyleText(entries));
    if entries != [] {
      StyleValueNonEmpty(entries);
    }
  }

  lemma StyleValueNonEmpty(entries: Props)
    requires entries != []
    ensures var r := StyleValue(entries); r != [] && r[|r| - 1] == ';'
  {
    var css := StyleText(entries);
    StyleTextEnd(entries);
    TrimEndFinalSpace(css);
    TrimStartKeepsEnd(css[..|css| - 1]);
  }

  /** When the first key does not begin with white space, trimming removes exactly
      the final space of the accumulated CSS text. */
  lemma StyleValueExact(entries: Props)
    requires entries != [] && (entries[0].0 == [] || !IsWhiteSpace(entries[0].0[0]))
    ensures StyleValue(entries) + " " == StyleText(entries)
  {
    var css := StyleText(entries);
    var body := css[..|css| - 1];
    StyleTextEnd(entries);
    TrimEndFinalSpace(css);
    StyleTextHead(entries);
    assert !IsWhiteSpace(css[0]);
    assert body[0] == css[0];
    assert TrimStart(body) == body;
    assert body + " " == css;
  }

  /** The CSS text of a non-empty mapping ends with `"; "`. */
  lemma StyleTextEnd(entries: Props)
    requires entries != []
    ensures var css := StyleText(entries); |css| >= 2 && css[|css| - 2] == ';' && css[|css| - 1] == ' '
  {
    var (k, v) := entries[|entries| - 1];
    assert StyleText(entries) == StyleText(entries[..|entries| - 1]) + (k + ": " + ToJsString(v) + "; ");
  }

  /** The accumulated CSS text begins with the first key, or with its `:` when
      that key is empty. */
  lemma {:induction false} StyleTextHead(entries: Props)
    requires entries != []
    ensures |StyleText(entries)| > 0 && StyleText(entries)[0] == (entries[0].0 + ": ")[0]
    decreases |entries|
  {
    var init := entries[..|entries| - 1];
    var (k, v) := entries[|entries| - 1];
    if init == [] {
      assert StyleText(entries) == "" + (k + ": " + ToJsString(v) + "; ");
    } else {
      assert init[0] == entries[0];
      StyleTextHead(init);
      assert StyleText(entries) == StyleText(init) + (k + ": " + ToJsString(v) + "; ");
    }
  }
}
