/** HTML entity escaping as done by the `escape-html` package, which the renderer
    applies to the payload of every text node: each of `& < > " '` is replaced by
    its character reference and every other character is kept as it is. */
module EscapeHtml {

  /** The five characters `escape-html` rewrites. */
  predicate IsSpecial(c: char) {
    c == '&' || c == '<' || c == '>' || c == '"' || c == '\''
  }

  /** The characters that delimit markup; escaped text never contains them raw.
      (`&` is not among them: escaped text does contain it, as the start of an entity.) */
  predicate IsMarkupDelimiter(c: char) {
    c == '<' || c == '>' || c == '"' || c == '\''
  }

  /** The replacement of one character. */
  function EscapeChar(c: char): (r: string)
    ensures IsSpecial(c) ==> |r| > 1 && r[0] == '&' && r[|r| - 1] == ';'
    ensures !IsSpecial(c) ==> r == [c]
    ensures forall i :: 0 <= i < |r| ==> !IsMarkupDelimiter(r[i])
  {
    if c == '&' then "&amp;"
    else if c == '<' then "&lt;"
    else if c == '>' then "&gt;"
    else if c == '"' then "&quot;"
    else if c == '\'' then "&#39;"
    else [c]
  }

  /** `escape(s)`: every character replaced by its `EscapeChar`, in order. */
  function Escape(s: string): (r: string)
    ensures |r| >= |s|
    ensures forall i :: 0 <= i < |r| ==> !IsMarkupDelimiter(r[i])
  {
    if s == [] then [] else EscapeChar(s[0]) + Escape(s[1..])
  }

  /** The reverse translation: decodes exactly the five references `Escape` produces
      and keeps every other character. */
  function Unescape(s: string): (r: string)
    decreases |s|
  {
    if s == [] then []
    else if "&amp;" <= s then "&" + Unescape(s[5..])
    else if "&lt;" <= s then "<" + Unescape(s[4..])
    else if "&gt;" <= s then ">" + Unescape(s[4..])
    else if "&quot;" <= s then "\"" + Unescape(s[6..])
    else if "&#39;" <= s then "'" + Unescape(s[5..])
    else [s[0]] + Unescape(s[1..])
  }

  /** Decoding the replacement of one character gives back that character. */
  lemma UnescapeEscapeChar(c: char, rest: string)
    ensures Unescape(EscapeChar(c) + rest) == [c] + Unescape(rest)
  {
    var e := EscapeChar(c);
    if c == '&' {
      assert (e + rest)[5..] == rest;
    } else if c == '<' {
      assert (e + rest)[1] == 'l';
      assert (e + rest)[4..] == rest;
    } else if c == '>' {
      assert (e + rest)[1] == 'g';
      assert (e + rest)[4..] == rest;
    } else if c == '"' {
      assert (e + rest)[1] == 'q';
      assert (e + rest)[6..] == rest;
    } else if c == '\'' {
      assert (e + rest)[1] == '#';
      assert (e + rest)[5..] == rest;
    } else {
      var s := e + rest;
      assert s[0] == c && s[1..] == rest;
      assert !("&amp;" <= s) && !("&lt;" <= s) && !("&gt;" <= s) && !("&quot;" <= s) && !("&#39;" <= s) by {
        assert s[0] != '&';
      }
    }
  }

  /** Escaping loses no information: `Unescape` inverts it on every string. */
  lemma {:induction false} UnescapeEscape(s: string)
    ensures Unescape(Escape(s)) == s
  {
    if s != [] {
      UnescapeEscape(s[1..]);
      UnescapeEscapeChar(s[0], Escape(s[1..]));
      assert [s[0]] + s[1..] == s;
    }
  }

  /** Escaping works character by character, so it distributes over concatenation. */
  lemma {:induction false} EscapeAppend(a: string, b: string)
    ensures Escape(a + b) == Escape(a) + Escape(b)
  {
    if a != [] {
      assert (a + b)[0] == a[0];
      assert (a + b)[1..] == a[1..] + b;
      EscapeAppend(a[1..], b);
    } else {
      assert a + b == b;
    }
  }

  /** A string is left unchanged by escaping exactly when it holds none of the five
      special characters. */
  lemma {:induction false} EscapeUnchangedIff(s: string)
    ensures Escape(s) == s <==> forall i :: 0 <= i < |s| ==> !IsSpecial(s[i])
  {
    if s != [] {
      EscapeUnchangedIff(s[1..]);
      var t := Escape(s[1..]);
      if IsSpecial(s[0]) {
        assert |Escape(s)| == |EscapeChar(s[0])| + |t| > |s|;
      } else {
        assert Escape(s) == [s[0]] + t;
        assert s == [s[0]] + s[1..];
        assert (forall i :: 0 <= i < |s| ==> !IsSpecial(s[i]))
          <==> (forall i :: 0 <= i < |s[1..]| ==> !IsSpecial(s[1..][i])) by {
          if forall i :: 0 <= i < |s[1..]| ==> !IsSpecial(s[1..][i]) {
            forall i | 0 <= i < |s| ensures !IsSpecial(s[i]) {
              if i > 0 { assert s[i] == s[1..][i - 1]; }
            }
          }
        }
      }
    }
  }
}
