# vdom-to-html in Dafny

A model of `toHTML`, the function at the core of vdom-to-html. It turns a
virtual-dom tree into an HTML string:

- an element (`VNode`) renders as its open tag, its content and its close tag;
- a text node (`VText`) renders as its text, HTML-escaped;
- anything else renders as the empty string.

The open tag is `<` plus the tag name. Each property is then visited in `for…in`
order. A null or undefined property is skipped. `attributes` is a mapping whose
entries are each handed to `createAttribute(k, v, true)`, each result preceded by a
space. `style` is a mapping flattened into `k: v; ` pairs and trimmed. Every other
property, `style` included, goes through `createAttribute(name, value)`, and its
result is appended, after a space, only when it is non-empty. The content is a
non-null `innerHTML` verbatim, or else the children rendered in order. There is no
close tag when the tag name is in the void-element table.

Files:

- `escape_html.dfy` (module `EscapeHtml`): the `escape-html` translation of
  `& < > " '` into character references, its inverse, and what escaping preserves.
- `js_value.dfy` (module `JsValue`): the JavaScript values a property can hold,
  `value == null`, `String(v)`, `String.prototype.trim` and the entries `for…in`
  visits on `extend({}, v)`.
- `to_html.dfy` (module `VdomToHtml`): the model proper. Functions
  (`ToHtml`, `OpenTag`, `TagContent`, `CloseTag`, `PropsText`, `PropText`,
  `AttributesText`, `StyleText`, `StyleValue`) state what the output is. Methods
  (`Render`, `RenderOpenTag`, `AppendProp`, `AppendAttributes`, `StyleCss`,
  `RenderTagContent`) are the functions of `index.js` and the bodies of its loops,
  written as statements that build `ret` and `css` step by step, each proved to
  produce that output. Lemmas state the properties of the output.
- `to_html_examples.dfy` (module `VdomToHtmlExamples`): cases of the test suite,
  each proved for every `createAttribute` and void-element table that give the
  results the test relies on.

`createAttribute` (from `create-attribute.js`) and the `voidElements` table (from
`void-elements.js`) are not part of this model. They are parameters, held in an
`Env`: an arbitrary total function `(name, value, isAttr) -> string` and a set of
tag names. `index.js` calls `createAttribute(name, value)` without a third argument, so the
callee sees `undefined` there; the model encodes the omitted argument as `false`.

## Model

| member | source | states |
|---|---|---|
| EscapeHtml.EscapeChar | index.js:16 | each special character becomes an entity that starts with `&` and ends with `;`; every other character is kept; no markup delimiter is produced |
| EscapeHtml.Escape | index.js:16 | escaped text is at least as long as the input and holds no raw `<`, `>`, `"` or `'` |
| EscapeHtml.UnescapeEscape | index.js:16 | escaping loses nothing: decoding the five entities gives back every input string |
| EscapeHtml.UnescapeEscapeChar | index.js:16 | decoding the replacement of one character, followed by anything, gives back that character |
| EscapeHtml.EscapeAppend | index.js:16 | escaping works character by character: it distributes over concatenation |
| EscapeHtml.EscapeUnchangedIff | test/test.js:226-229 | a string is unchanged by escaping if and only if it holds none of `& < > " '` |
| JsValue.OwnEntries | index.js:31-32 | `extend({}, v)` enumerates an object's entries in order; a string gives, for each index `i`, the entry `String(i)` mapped to its `i`-th character, so its keys read back as 0, 1, … in ascending order, the order `for…in` visits integer keys; other values give nothing |
| JsValue.NatDigits | index.js:42 | the decimal numeral of a natural number is non-empty, all digits, without a leading zero, and reads back as that number |
| JsValue.Decimal | index.js:42 | `String(n)` of an integral number starts with `-` exactly when `n` is negative, continues with canonical digits (digits only, no leading zero), and reads back as `n` |
| JsValue.ToJsString | index.js:42 | `String(v)`, as `+` applies it to a style value (and, at line 14, to a non-string `innerHTML`), is empty exactly for the empty string; a number's string is its canonical numeral (a `-` exactly for a negative number, then digits without a leading zero) and reads back as that number |
| JsValue.TrimStartSpec | index.js:44 | the removed prefix is all white space, and what is left is empty or starts with a non-white-space character |
| JsValue.TrimEndSpec | index.js:44 | the removed suffix is all white space, and what is left is empty or ends with a non-white-space character |
| JsValue.TrimSpec | index.js:44 | `trim()` leaves no white space at either end, and gives the empty string exactly when the input is all white space |
| JsValue.TrimEndFinalSpace | index.js:44 | trimming the end of a string that ends in one space after a non-white-space character removes just that space |
| JsValue.TrimStartKeepsEnd | index.js:44 | trimming the start keeps a non-white-space last character, so the result is non-empty |
| VdomToHtml.AttributesText | index.js:30-35 | the `attributes` text has at least one character (the separating space) per entry |
| VdomToHtml.AttributesEntry | index.js:30-35 | each entry `(k, v)` contributes exactly `" " + createAttribute(k, v, true)` at its place, even when `createAttribute` yields the empty string |
| VdomToHtml.AttributesAppend | index.js:32-34 | the `attributes` text of `a + b` is that of `a` followed by that of `b` |
| VdomToHtml.AttributesTextHead | index.js:33 | a non-empty `attributes` text starts with a space |
| VdomToHtml.PropContribution | index.js:27-48 | one property's contribution is empty or starts with a space; it is empty for a null or undefined value; `attributes` gives at least one character per entry; any other property contributes nothing exactly when `createAttribute` yields the empty string |
| VdomToHtml.PropsAppend | index.js:26-49 | the properties' text of `p + q` is that of `p` followed by that of `q`: properties are rendered independently and in order |
| VdomToHtml.PropsTextSnoc | index.js:26-49 | adding one property at the end adds its contribution at the end |
| VdomToHtml.PropsTextHead | index.js:26-49 | the properties' text is empty or starts with a space |
| VdomToHtml.NullPropsContributeNothing | index.js:28 | dropping the null and undefined properties leaves the properties' text and the open tag unchanged |
| VdomToHtml.NonNullish | index.js:28 | the kept properties are exactly the given ones that are neither null nor undefined: every kept entry is given and non-nullish, and every non-nullish given entry is kept |
| VdomToHtml.NonNullishAppend | index.js:26-28 | filtering keeps the order of the properties: the filter of `p + q` is the filter of `p` followed by that of `q`, and one entry is kept exactly when it is neither null nor undefined |
| VdomToHtml.NullPropSkipped | index.js:28 | a null or undefined property leaves no trace wherever it stands: the properties' text of `a`, the property, `b` equals that of `a + b` |
| VdomToHtml.LookupFirst | index.js:55 | `props[key]` is the value of the first entry with that key, and `undefined` when no entry has it |
| VdomToHtml.FalsyInnerHtmlReplacesChildren | index.js:56 | the `innerHTML` test is `!= null`, not truthiness: `""`, `0` and `false` count as present and replace the children, each by its own string: `""` by `""`, `0` by `"0"`, `false` by `"false"` |
| VdomToHtml.CloseTag | index.js:69-71 | the close tag is empty exactly for a void element; otherwise it is `</`, the tag name and `>` |
| VdomToHtml.OpenTagShape | index.js:22-52 | the open tag is `<`, the tag name verbatim, then a space or the final `>`; it ends with `>` |
| VdomToHtml.StyleValueShape | index.js:38-45 | the `style` string is empty exactly when the mapping has no entries; otherwise it ends with `;` and does not start with white space |
| VdomToHtml.StyleValueNonEmpty | index.js:38-45 | a non-empty mapping gives a non-empty `style` string ending with `;` |
| VdomToHtml.StyleValueExact | index.js:38-45 | for a non-empty mapping whose first key is empty or does not start with white space, the `style` string is the accumulated CSS minus its final space |
| VdomToHtml.StyleTextEnd | index.js:42 | the CSS accumulated for a non-empty mapping ends with `"; "` |
| VdomToHtml.StyleTextHead | index.js:41-43 | the accumulated CSS starts with the first key, or with `:` when that key is empty |
| VdomToHtml.RenderOpenTag | index.js:22-52 | the `for…in` loop over the properties builds exactly the open tag |
| VdomToHtml.AppendProp | index.js:27-48 | one pass of that loop appends exactly the property's contribution to `ret` |
| VdomToHtml.AppendAttributes | index.js:30-35 | the loop over `attributes` appends exactly the `attributes` text |
| VdomToHtml.StyleCss | index.js:39-43 | the loop over `style` accumulates exactly the CSS text |
| VdomToHtml.RenderTagContent | index.js:54-67 | `tagContent` returns `innerHTML` as a string when it is not null, else the children's renderings concatenated in order |
| VdomToHtml.Render | index.js:10-20 | `toHTML` computes exactly the rendering `ToHtml` specifies, on every node |
| VdomToHtml.NonNodeRendersEmpty | index.js:10-20 | anything that is neither an element nor a text node renders as the empty string |
| VdomToHtml.TextRendersEscaped | index.js:15-16 | a text node renders as its escaped text, with no raw markup delimiter, and decodes back to the text |
| VdomToHtml.ElementFraming | index.js:14 | an element is open tag, content, close tag; it starts with `<` and the tag name; a void element has no close tag but keeps its content; any other element ends with `</tagName>` |
| VdomToHtml.InnerHtmlOverridesChildren | index.js:54-56 | a non-null `innerHTML` is the whole content, unescaped, and the children do not affect the output |
| VdomToHtml.ChildrenAppend | index.js:57-65 | rendering the children `a + b` gives the rendering of `a` followed by that of `b` |
| VdomToHtml.ChildrenInOrder | index.js:57-65 | without `innerHTML`, no children give empty content, and children `a + b` render between the tags as those of `a` then those of `b` |
| VdomToHtmlExamples.NestedChildren | test/test.js:149-157 | nested elements render depth first and siblings in order |
| VdomToHtmlExamples.SimpleElement | test/test.js:16-19 | `span` with nothing in it renders as `<span></span>` |
| VdomToHtmlExamples.InnerText | test/test.js:21-24 | a text child renders between the tags |
| VdomToHtmlExamples.VoidElement | test/test.js:35-40 | `input` and `br` get no end tag |
| VdomToHtmlExamples.NullProperties | test/test.js:51-57 | null properties leave no trace |
| VdomToHtmlExamples.StyleProperty | test/test.js:59-67 | the style mapping reaches `createAttribute` as `background: black; color: red;`, and its result is the only attribute |
| VdomToHtmlExamples.ExampleStyleValue | test/test.js:59-67 | the trimmed CSS of that mapping is `background: black; color: red;` |
| VdomToHtmlExamples.NullAttribute | test/test.js:138-147 | a null `attributes` entry still leaves its space: `<circle cx="60" cy="60" ></circle>` |
| VdomToHtmlExamples.InnerHtml | test/test.js:175-180 | `innerHTML` is emitted unescaped, in place of the children |
| VdomToHtmlExamples.EscapedText | test/test.js:226-229 | non-ASCII characters are kept and `& " ' < >` become `&amp; &quot; &#39; &lt; &gt;` |

## Left out

- The demonstration code at the end of `index.js` (lines 73-92) builds a tree and writes its rendering to the console. It is I/O and not part of the renderer.
- `createAttribute` and the void-element table: their code is not part of this model (see above). A `createAttribute` result that is not a string, or is falsy without being empty, is not modelled: the result is a string, and only the empty string counts as falsy.
- `escape-html` is not part of this model. `EscapeHtml.Escape` states the translation the package documents: each of `& < > " '` is replaced by `&amp; &lt; &gt; &quot; &#39;`.
- JavaScript property order. An object is an ordered list of entries, and that order stands for the order in which `for…in` visits the keys. Integer-like keys, which `for…in` visits first, and inherited enumerable keys are not modelled. A property mapping with two entries of the same key is not a JavaScript object. `Lookup` takes the first such entry.
- Truthiness of `voidElements[tagName]` for inherited keys such as `toString` is not modelled. A tag is void exactly when it is in the set.
- Numbers are integers (`Num(n: int)`, printed in decimal). JavaScript prints an integral value of magnitude 10^21 or more in exponent form (`String(1e21)` is `"1e+21"`); the model prints every integer in decimal. Floating-point values, `NaN`, `Infinity`, and `String()` of arrays and functions are not modelled. Any object prints as `[object Object]`.
- `String(node.text)` for a text node whose `text` is not a string: text is a string in this model.
- `tagContent` tests `node.children && node.children.length`. Children are always a sequence here, and an empty sequence gives the empty string, as in the source.
- The test file also checks several behaviours that `index.js` does not implement, and the model follows `index.js`:
  - thunks and widgets (test/test.js:182-200);
  - lower-casing the tag name (test/test.js:202-205);
  - param-case `style` keys (test/test.js:69-78);
  - `dataset` (test/test.js:87-104);
  - unescaped `script` and `style` contents (test/test.js:80-85, 168-173, 212-217). In the model, as in `index.js`, every text node is escaped (`TextRendersEscaped`) whatever its parent.
- JsValue.OwnEntries: `for…in` over `extend({}, s)` for a string `s` (index.js:31 and 40) visits one index per UTF-16 code unit, while the model gives one entry per Dafny character, a Unicode scalar value. A character outside the Basic Multilingual Plane gives two entries in JavaScript and one here.
- VdomToHtml.PropContribution: for `attributes`, it gives only a lower bound on the length; the exact text of every entry is `AttributesEntry`.
