/** Fixtures of the renderer's test suite, stated for every `createAttribute` and
    void-element table that behave on the inputs involved as the real ones do.

    Each fixture is proved from symbolic helpers about the shape of the output,
    followed by one equation between string literals. The lemmas named `…Literal`,
    `PayloadPieces` and `SpecialsLiteral` are such equations and nothing more: they
    split the comparison of long literals into steps the solver takes cheaply, and
    say nothing about the renderer. For the same reason, some expected outputs are
    written as a concatenation of pieces (start tag, content, end tag, or one piece
    per child) rather than one literal, and `StyleProperty` takes the attribute text
    `attr` that `createAttribute` returns for the style string, which for the real
    `createAttribute` is `style="background: black; color: red;"`; the style string
    itself is fixed exactly by `ExampleStyleValue`. */
module VdomToHtmlExamples {
  import opened JsValue
  import opened VdomToHtml
  import EscapeHtml

  /** An element with no properties and no children. */
  lemma SimpleElement(env: Env)
    requires "span" !in env.voidElements
    ensures ToHtml(env, VNode("span", [], [])) == "<span></span>"
  {
  }

  /** A void element gets no end tag. */
  lemma VoidElement(env: Env)
    requires "input" in env.voidElements && "br" in env.voidElements
    ensures ToHtml(env, VNode("input", [], [])) == "<input>"
    ensures ToHtml(env, VNode("br", [], [])) == "<br>"
  {
  }

  /** A text child is rendered between the tags. */
  lemma InnerText(env: Env)
    requires "span" !in env.voidElements
    ensures ToHtml(env, VNode("span", [], [VText("hello")])) == "<span>hello</span>"
  {
    Wrap(env, "span", VText("hello"));
    EscapeHtml.EscapeUnchangedIff("hello");
    InnerTextLiteral();
  }

  lemma InnerTextLiteral()
    ensures "<" + "span" + ">" + "hello" + "</" + "span" + ">" == "<span>hello</span>"
  {
  }

  /** Null properties leave no trace in the open tag. */
  lemma NullProperties(env: Env)
    requires "web-component" !in env.voidElements
    ensures ToHtml(env, VNode("web-component", [("className", Null), ("id", Null)], []))
         == "<web-component></web-component>"
  {
    var props := [("className", Null), ("id", Null)];
    PropsTextSnoc(env, props, 0);
    PropsTextSnoc(env, props, 1);
    assert props[..0] == [] && props[..2] == props;
    assert PropsText(env, props) == "";
    assert Lookup(props, "innerHTML") == Undefined by {
      assert props[1..][1..] == [];
    }
    assert TagContent(env, props, []) == "";
    assert OpenTag(env, "web-component", props) == "<" + "web-component" + "" + ">";
    assert CloseTag(env, "web-component") == "</" + "web-component" + ">";
    NullPropertiesLiteral();
  }

  lemma NullPropertiesLiteral()
    ensures "<" + "web-component" + "" + ">" + "" + "</" + "web-component" + ">" == "<web-component></web-component>"
  {
  }

  /** The `style` mapping becomes one trimmed CSS string, handed to
      `createAttribute`, whose result (`style="background: black; color: red;"` for
      the real one) is the tag's only attribute. */
  lemma StyleProperty(env: Env, attr: string)
    requires "div" !in env.voidElements
    requires env.createAttribute("style", Str("background: black; color: red;"), false) == attr
    requires attr != ""
    ensures ToHtml(env, VNode("div", [("style", Obj([("background", Str("black")), ("color", Str("red"))]))], []))
         == "<div " + attr + "></div>"
  {
    var b, c := ("background", Str("black")), ("color", Str("red"));
    var entries := [b, c];
    ExampleStyleValue();
    assert PropText(env, "style", Obj(entries)) == " " + attr by {
      assert OwnEntries(Obj(entries)) == entries;
      assert AttrValue("style", Obj(entries)) == Str(StyleValue(entries));
      assert AttrValue("style", Obj(entries)) == Str("background: black; color: red;");
      assert !IsNullish(Obj(entries));
    }
    Element(env, "div", [("style", Obj(entries))], "style", Obj(entries));
    DivAttrLiteral(attr);
  }

  lemma DivAttrLiteral(attr: string)
    ensures "<" + "div" + (" " + attr) + ">" + "</" + "div" + ">" == "<div " + attr + "></div>"
  {
  }

  /** The `style` value of the fixture's mapping. */
  lemma ExampleStyleValue()
    ensures StyleValue([("background", Str("black")), ("color", Str("red"))]) == "background: black; color: red;"
  {
    var b, c := ("background", Str("black")), ("color", Str("red"));
    TwoStyleEntries(b.0, b.1, c.0, c.1);
    StyleValueExact([b, c]);
    StyleLiteral();
  }

  /** The CSS text of two entries, one after the other. */
  lemma TwoStyleEntries(k1: string, v1: Value, k2: string, v2: Value)
    ensures StyleText([(k1, v1), (k2, v2)])
         == "" + (k1 + ": " + ToJsString(v1) + "; ") + (k2 + ": " + ToJsString(v2) + "; ")
  {
    var entries := [(k1, v1), (k2, v2)];
    assert entries[..1] == [(k1, v1)] && entries[..1][..0] == [];
    assert StyleText(entries[..1]) == "" + (k1 + ": " + ToJsString(v1) + "; ");
  }

  lemma StyleLiteral()
    ensures var css := "" + ("background" + ": " + "black" + "; ") + ("color" + ": " + "red" + "; ");
      forall r: string :: r + " " == css ==> r == "background: black; color: red;"
  {
    var css := "" + ("background" + ": " + "black" + "; ") + ("color" + ": " + "red" + "; ");
    assert css == "background: black; color: red;" + " ";
    forall r: string | r + " " == css ensures r == "background: black; color: red;" {
      assert r == (r + " ")[..|r|];
    }
  }

  /** A null entry of `attributes` still gets its leading space. */
  lemma NullAttribute(env: Env)
    requires "circle" !in env.voidElements
    requires env.createAttribute("cx", Str("60"), true) == "cx=\"60\""
    requires env.createAttribute("cy", Str("60"), true) == "cy=\"60\""
    requires env.createAttribute("r", Null, true) == ""
    ensures ToHtml(env, VNode("circle", [("attributes", Obj([("cx", Str("60")), ("cy", Str("60")), ("r", Null)]))], []))
         == "<circle cx=\"60\" cy=\"60\" ></circle>"
  {
    var cx, cy, r := ("cx", Str("60")), ("cy", Str("60")), ("r", Null);
    OneAttribute(env, cx.0, cx.1);
    OneAttribute(env, r.0, r.1);
    AttributesEntry(env, [cx], cy.0, cy.1, [r]);
    assert [cx] + [cy] + [r] == [cx, cy, r];
    Element(env, "circle", [("attributes", Obj([cx, cy, r]))], "attributes", Obj([cx, cy, r]));
    NullAttributeLiteral();
  }

  lemma NullAttributeLiteral()
    ensures "<" + "circle" + ((" " + "cx=\"60\"") + (" " + "cy=\"60\"") + (" " + "")) + ">" + "</" + "circle" + ">"
         == "<circle cx=\"60\" cy=\"60\" ></circle>"
  {
  }

  /** `innerHTML` is emitted without escaping and instead of the children. */
  lemma InnerHtml(env: Env, children: seq<Node>)
    requires "div" !in env.voidElements
    requires env.createAttribute("innerHTML", Str("<span>sup</span>"), false) == ""
    ensures ToHtml(env, VNode("div", [("innerHTML", Str("<span>sup</span>"))], children))
         == "<div><span>sup</span></div>"
  {
    var props := [("innerHTML", Str("<span>sup</span>"))];
    assert props[..0] == [];
    assert PropsText(env, props) == "";
    assert TagContent(env, props, children) == "<span>sup</span>";
    InnerHtmlLiteral();
  }

  lemma InnerHtmlLiteral()
    ensures "<" + "div" + "" + ">" + "<span>sup</span>" + "</" + "div" + ">" == "<div><span>sup</span></div>"
  {
  }

  /** Text keeps ordinary characters, here the UTF-8 bytes of a CJK word read as
      Latin-1 code points, and replaces each special one by its entity. (The expected
      output is written in three pieces: the start tag, the escaped text, the end tag.) */
  lemma EscapedText(env: Env)
    requires "span" !in env.voidElements
    ensures ToHtml(env, VNode("span", [], [VText("\U{e6}\U{b5}\U{8b}\U{e8}\U{af}\U{95}&\"'<>")]))
         == "<span>" + "\U{e6}\U{b5}\U{8b}\U{e8}\U{af}\U{95}&amp;&quot;&#39;&lt;&gt;" + "</span>"
  {
    var text := "\U{e6}\U{b5}\U{8b}\U{e8}\U{af}\U{95}&\"'<>";
    Wrap(env, "span", VText(text));
    EscapedPayload();
    SpanLiteral(EscapeHtml.Escape(text));
  }

  lemma SpanLiteral(p: string)
    ensures "<" + "span" + ">" + p + "</" + "span" + ">" == "<span>" + p + "</span>"
  {
  }

  lemma EscapedPayload()
    ensures EscapeHtml.Escape("\U{e6}\U{b5}\U{8b}\U{e8}\U{af}\U{95}&\"'<>") == "\U{e6}\U{b5}\U{8b}\U{e8}\U{af}\U{95}&amp;&quot;&#39;&lt;&gt;"
  {
    PayloadPieces();
    PlainUnchanged();
    EscapeSpecials();
    EscapeJoin("\U{e6}\U{b5}\U{8b}\U{e8}\U{af}\U{95}&\"'<>", "\U{e6}\U{b5}\U{8b}\U{e8}\U{af}\U{95}", "&\"'<>", "\U{e6}\U{b5}\U{8b}\U{e8}\U{af}\U{95}", "&amp;&quot;&#39;&lt;&gt;", "\U{e6}\U{b5}\U{8b}\U{e8}\U{af}\U{95}&amp;&quot;&#39;&lt;&gt;");
  }

  lemma PayloadPieces()
    ensures "\U{e6}\U{b5}\U{8b}\U{e8}\U{af}\U{95}&\"'<>" == "\U{e6}\U{b5}\U{8b}\U{e8}\U{af}\U{95}" + "&\"'<>"
    ensures "\U{e6}\U{b5}\U{8b}\U{e8}\U{af}\U{95}&amp;&quot;&#39;&lt;&gt;" == "\U{e6}\U{b5}\U{8b}\U{e8}\U{af}\U{95}" + "&amp;&quot;&#39;&lt;&gt;"
  {
  }

  lemma PlainUnchanged()
    ensures EscapeHtml.Escape("\U{e6}\U{b5}\U{8b}\U{e8}\U{af}\U{95}") == "\U{e6}\U{b5}\U{8b}\U{e8}\U{af}\U{95}"
  {
    EscapeHtml.EscapeUnchangedIff("\U{e6}\U{b5}\U{8b}\U{e8}\U{af}\U{95}");
  }

  /** Escaping a concatenation, piece by piece. */
  lemma EscapeJoin(t: string, a: string, b: string, ea: string, eb: string, r: string)
    requires t == a + b && EscapeHtml.Escape(a) == ea && EscapeHtml.Escape(b) == eb && r == ea + eb
    ensures EscapeHtml.Escape(t) == r
  {
    EscapeHtml.EscapeAppend(a, b);
  }

  lemma EscapeSpecials()
    ensures EscapeHtml.Escape("&\"'<>") == "&amp;&quot;&#39;&lt;&gt;"
  {
    EscapeFive('&', '"', '\'', '<', '>');
    SpecialsLiteral();
  }

  lemma SpecialsLiteral()
    ensures EscapeHtml.EscapeChar('&') + (EscapeHtml.EscapeChar('"') + (EscapeHtml.EscapeChar('\'')
          + (EscapeHtml.EscapeChar('<') + (EscapeHtml.EscapeChar('>') + [])))) == "&amp;&quot;&#39;&lt;&gt;"
  {
  }

  /** Escaping five characters is replacing each of them. */
  lemma EscapeFive(c1: char, c2: char, c3: char, c4: char, c5: char)
    ensures EscapeHtml.Escape([c1, c2, c3, c4, c5])
         == EscapeHtml.EscapeChar(c1) + (EscapeHtml.EscapeChar(c2) + (EscapeHtml.EscapeChar(c3)
          + (EscapeHtml.EscapeChar(c4) + (EscapeHtml.EscapeChar(c5) + []))))
  {
    var s5 := [c5] + [];
    var s4 := [c4] + s5;
    var s3 := [c3] + s4;
    var s2 := [c2] + s3;
    assert [c1, c2, c3, c4, c5] == [c1] + s2;
    EscapeCons(c5, []);
    EscapeCons(c4, s5);
    EscapeCons(c3, s4);
    EscapeCons(c2, s3);
    EscapeCons(c1, s2);
  }

  /** Escaping a string is replacing its first character and escaping the rest. */
  lemma EscapeCons(c: char, rest: string)
    ensures EscapeHtml.Escape([c] + rest) == EscapeHtml.EscapeChar(c) + EscapeHtml.Escape(rest)
  {
    assert ([c] + rest)[0] == c && ([c] + rest)[1..] == rest;
  }

  /** Nested elements render depth first, siblings in order. (The expected output
      is written piece by piece, one piece per child.) */
  lemma NestedChildren(env: Env)
    requires "div" !in env.voidElements
    requires env.createAttribute("id", Str("a-div"), false) == "id=\"a-div\""
    requires env.createAttribute("className", Str("just-another-div"), false) == "class=\"just-another-div\""
    ensures ToHtml(env, VNode("div", [], [
              VNode("div", [("id", Str("a-div"))], [VNode("div", [], [VText("HI!")])]),
              VNode("div", [("className", Str("just-another-div"))], [])]))
         == "<div>" + "<div id=\"a-div\"><div>HI!</div></div>" + "<div class=\"just-another-div\"></div>" + "</div>"
  {
    var a := VNode("div", [("id", Str("a-div"))], [VNode("div", [], [VText("HI!")])]);
    var b := VNode("div", [("className", Str("just-another-div"))], []);
    TwoChildren(env, "div", a, b);
    IdDiv(env);
    ClassDiv(env);
    TwoChildDivLiteral(ToHtml(env, a), ToHtml(env, b));
  }

  lemma TwoChildDivLiteral(p: string, q: string)
    ensures "<" + "div" + ">" + p + q + "</" + "div" + ">" == "<div>" + p + q + "</div>"
  {
  }

  lemma HiDiv(env: Env)
    requires "div" !in env.voidElements
    ensures ToHtml(env, VNode("div", [], [VText("HI!")])) == "<div>HI!</div>"
  {
    Wrap(env, "div", VText("HI!"));
    HiUnchanged();
    DivLiteral("HI!");
    assert "<div>" + "HI!" + "</div>" == "<div>HI!</div>";
  }

  lemma IdDiv(env: Env)
    requires "div" !in env.voidElements
    requires env.createAttribute("id", Str("a-div"), false) == "id=\"a-div\""
    ensures ToHtml(env, VNode("div", [("id", Str("a-div"))], [VNode("div", [], [VText("HI!")])]))
         == "<div id=\"a-div\"><div>HI!</div></div>"
  {
    var hi := VNode("div", [], [VText("HI!")]);
    ElementWithChild(env, "div", [("id", Str("a-div"))], "id", Str("a-div"), hi);
    PlainProp(env, "id", Str("a-div"));
    HiDiv(env);
    IdDivLiteral();
  }

  lemma IdDivLiteral()
    ensures "<" + "div" + (" " + "id=\"a-div\"") + ">" + "<div>HI!</div>" + "</" + "div" + ">"
         == "<div id=\"a-div\"><div>HI!</div></div>"
  {
  }

  lemma ClassDiv(env: Env)
    requires "div" !in env.voidElements
    requires env.createAttribute("className", Str("just-another-div"), false) == "class=\"just-another-div\""
    ensures ToHtml(env, VNode("div", [("className", Str("just-another-div"))], []))
         == "<div class=\"just-another-div\"></div>"
  {
    Element(env, "div", [("className", Str("just-another-div"))], "className", Str("just-another-div"));
    PlainProp(env, "className", Str("just-another-div"));
    ClassDivLiteral();
  }

  lemma ClassDivLiteral()
    ensures "<" + "div" + (" " + "class=\"just-another-div\"") + ">" + "</" + "div" + ">"
         == "<div class=\"just-another-div\"></div>"
  {
    var attr := "class=\"just-another-div\"";
    assert "<" + "div" + (" " + attr) + ">" == "<div " + attr + ">";
  }

  lemma HiUnchanged()
    ensures EscapeHtml.Escape("HI!") == "HI!"
  {
    EscapeHtml.EscapeUnchangedIff("HI!");
  }

  lemma DivLiteral(p: string)
    ensures "<" + "div" + ">" + p + "</" + "div" + ">" == "<div>" + p + "</div>"
  {
  }

  // ------------------------------------------------------------------ helpers

  /** A single child's content is its own rendering. */
  lemma SingleChild(env: Env, child: Node)
    ensures ChildrenHtml(env, [child]) == ToHtml(env, child)
  {
    assert [child][..0] == [];
  }

  /** An element without properties around two children. */
  lemma TwoChildren(env: Env, tagName: string, a: Node, b: Node)
    requires tagName !in env.voidElements
    ensures ToHtml(env, VNode(tagName, [], [a, b]))
         == "<" + tagName + ">" + ToHtml(env, a) + ToHtml(env, b) + "</" + tagName + ">"
  {
    ChildrenInOrder(env, tagName, [], [a], [b]);
    SingleChild(env, a);
    SingleChild(env, b);
    assert [a] + [b] == [a, b];
    assert OpenTag(env, tagName, []) == "<" + tagName + ">";
  }

  /** An element without properties around a single child. */
  lemma Wrap(env: Env, tagName: string, child: Node)
    requires tagName !in env.voidElements
    ensures ToHtml(env, VNode(tagName, [], [child])) == "<" + tagName + ">" + ToHtml(env, child) + "</" + tagName + ">"
  {
    assert [child][..0] == [];
    assert Lookup([], "innerHTML") == Undefined;
    assert ChildrenHtml(env, [child]) == ChildrenHtml(env, []) + ToHtml(env, child);
    assert TagContent(env, [], [child]) == ToHtml(env, child);
    assert OpenTag(env, tagName, []) == "<" + tagName + ">";
    assert CloseTag(env, tagName) == "</" + tagName + ">";
  }

  /** An element with a single property other than `innerHTML` around a single child. */
  lemma ElementWithChild(env: Env, tagName: string, props: Props, name: string, value: Value, child: Node)
    requires props == [(name, value)] && name != "innerHTML" && tagName !in env.voidElements
    ensures ToHtml(env, VNode(tagName, props, [child]))
         == "<" + tagName + PropText(env, name, value) + ">" + ToHtml(env, child) + "</" + tagName + ">"
  {
    assert props[..0] == [] && props[1..] == [] && [child][..0] == [];
    assert Lookup(props, "innerHTML") == Undefined;
    assert ChildrenHtml(env, [child]) == ChildrenHtml(env, []) + ToHtml(env, child);
    assert TagContent(env, props, [child]) == ToHtml(env, child);
    assert PropsText(env, props) == PropText(env, name, value);
  }

  /** An element with a single property other than `innerHTML` and no children. */
  lemma Element(env: Env, tagName: string, props: Props, name: string, value: Value)
    requires props == [(name, value)] && name != "innerHTML" && tagName !in env.voidElements
    ensures ToHtml(env, VNode(tagName, props, [])) == "<" + tagName + PropText(env, name, value) + ">" + "</" + tagName + ">"
  {
    assert props[..0] == [] && props[1..] == [];
    assert Lookup(props, "innerHTML") == Undefined;
    assert TagContent(env, props, []) == "";
    assert PropsText(env, props) == PropText(env, name, value);
  }

  /** A non-null property other than `attributes` and `style` is handed to
      `createAttribute` as it is. */
  lemma PlainProp(env: Env, name: string, value: Value)
    requires !IsNullish(value) && name != "attributes" && name != "style"
    requires env.createAttribute(name, value, false) != ""
    ensures PropText(env, name, value) == " " + env.createAttribute(name, value, false)
  {
  }

  /** The `attributes` text of a single entry. */
  lemma OneAttribute(env: Env, k: string, v: Value)
    ensures AttributesText(env, [(k, v)]) == " " + env.createAttribute(k, v, true)
  {
    assert [(k, v)][..0] == [];
  }
}
