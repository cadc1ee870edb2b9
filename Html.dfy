/** `FTableDOMHelper.escapeHtml`: the five HTML-special characters are
    replaced by their entities. */
module Html {
  import opened Wrappers
  import opened Js

  predicate IsSpecial(c: char) {
    c == '&' || c == '<' || c == '>' || c == '"' || c == '\''
  }

  /** The replacement for one character. */
  function EscapeChar(c: char): (r: string)
    ensures !IsSpecial(c) ==> r == [c]
    ensures IsSpecial(c) ==> |r| >= 4 && r[0] == '&' && r[|r| - 1] == ';'
  {
    match c
    case '&' => "&amp;"
    case '<' => "&lt;"
    case '>' => "&gt;"
    case '"' => "&quot;"
    case '\'' => "&#039;"
    case _ => [c]
  }

  /** `escapeHtml(text)` on a string (the empty string comes back as is). */
  function EscapeHtml(text: string): (r: string)
    ensures |r| >= |text|
    ensures text == "" ==> r == ""
  {
    if text == [] then [] else EscapeChar(text[0]) + EscapeHtml(text[1..])
  }

  /** `escapeHtml(value)` on any value: a falsy value comes back unchanged,
      a string is escaped, and any other value throws (`None`), having no
      `replace`. */
  function EscapeHtmlValue(v: JsValue): (r: Option<JsValue>)
    ensures r.None? <==> Truthy(v) && !v.Str?
    ensures !Truthy(v) ==> r == Some(v)
    ensures v.Str? ==> r == Some(Str(EscapeHtml(v.s)))
  {
    if !Truthy(v) then Some(v)
    else if v.Str? then Some(Str(EscapeHtml(v.s)))
    else None
  }

  /** Whatever `escapeHtml` returns without throwing decodes back to its
      argument. */
  lemma EscapeHtmlValueInverts(v: JsValue)
    requires EscapeHtmlValue(v).Some?
    ensures var w := EscapeHtmlValue(v).value;
      (if w.Str? then Str(Unescape(w.s)) else w) == v
  {
    if v.Str? {
      UnescapeEscape(v.s);
    }
  }

  /** Decoding of the five entities, left to right: the reference the
      escaping is checked against. */
  function Unescape(t: string): string
  {
    if t == [] then []
    else if "&amp;" <= t then "&" + Unescape(t[5..])
    else if "&lt;" <= t then "<" + Unescape(t[4..])
    else if "&gt;" <= t then ">" + Unescape(t[4..])
    else if "&quot;" <= t then "\"" + Unescape(t[6..])
    else if "&#039;" <= t then "'" + Unescape(t[6..])
    else [t[0]] + Unescape(t[1..])
  }

  lemma UnescapeStep(c: char, rest: string)
    ensures Unescape(EscapeChar(c) + rest) == [c] + Unescape(rest)
  {
    var e := EscapeChar(c);
    var t := e + rest;
    assert t[..|e|] == e && t[|e|..] == rest;
    if !IsSpecial(c) {
      assert t[0] == c && t[1..] == rest;
      assert !("&amp;" <= t) && !("&lt;" <= t) && !("&gt;" <= t) && !("&quot;" <= t) && !("&#039;" <= t) by {
        assert t[0] != '&';
      }
    } else if c == '&' {
      assert "&amp;" <= t;
    } else if c == '<' {
      assert !("&amp;" <= t) by { assert t[1] == 'l'; }
      assert "&lt;" <= t;
    } else if c == '>' {
      assert !("&amp;" <= t) && !("&lt;" <= t) by { assert t[1] == 'g'; }
      assert "&gt;" <= t;
    } else if c == '"' {
      assert !("&amp;" <= t) && !("&lt;" <= t) && !("&gt;" <= t) by { assert t[1] == 'q'; }
      assert "&quot;" <= t;
    } else {
      assert !("&amp;" <= t) && !("&lt;" <= t) && !("&gt;" <= t) && !("&quot;" <= t) by { assert t[1] == '#'; }
      assert "&#039;" <= t;
    }
  }

  /** Escaping loses nothing: decoding the entities gives the text back. */
  lemma {:induction false} UnescapeEscape(text: string)
    ensures Unescape(EscapeHtml(text)) == text
  {
    if text != [] {
      UnescapeEscape(text[1..]);
      UnescapeStep(text[0], EscapeHtml(text[1..]));
    }
  }

  /** The escaped text holds no `<`, `>`, `"` or `'`, so it cannot open a
      tag or close an attribute value. */
  lemma {:induction false} EscapedIsInert(text: string)
    ensures forall k :: 0 <= k < |EscapeHtml(text)| ==> !IsSpecial(EscapeHtml(text)[k]) || EscapeHtml(text)[k] == '&'
  {
    if text != [] {
      EscapedIsInert(text[1..]);
      var e := EscapeChar(text[0]);
      var r := EscapeHtml(text);
      assert r == e + EscapeHtml(text[1..]);
      forall k | 0 <= k < |r| ensures !IsSpecial(r[k]) || r[k] == '&' {
        if k >= |e| { assert r[k] == EscapeHtml(text[1..])[k - |e|]; }
      }
    }
  }

  /** Text without special characters is left as it is. */
  lemma {:induction false} EscapePlain(text: string)
    requires forall k :: 0 <= k < |text| ==> !IsSpecial(text[k])
    ensures EscapeHtml(text) == text
  {
    if text != [] {
      EscapePlain(text[1..]);
    }
  }
}
