/**
  `escapeHtml`: the five global replacements the editor applies before a
  text goes into the results markup, `&` first and then `<`, `>`, `"` and
  `'`. A value that is not a string passes through unchanged.
 */
module Escape {
  import opened Cells
  import opened Seqs

  /** `s.replace(/c/g, rep)` for a one-character pattern. */
  function ReplaceChar(s: string, c: char, rep: string): string
    decreases |s|
  {
    if s == [] then [] else (if s[0] == c then rep else [s[0]]) + ReplaceChar(s[1..], c, rep)
  }

  /** The replacement chain exactly as the editor writes it. */
  function EscapeString(s: string): string {
    ReplaceChar(ReplaceChar(ReplaceChar(ReplaceChar(ReplaceChar(
      s, '&', "&amp;"), '<', "&lt;"), '>', "&gt;"), '"', "&quot;"), '\'', "&#039;")
  }

  /** `escapeHtml(value)`: strings are escaped, anything else is handed back as it is. */
  function EscapeHtml(v: Resolved): (r: Resolved)
    ensures !v.Text? ==> r == v
    ensures v.Text? ==> r.Text? && r.s == EscapeChars(v.s)
  {
    EscapeChainIsSinglePass(if v.Text? then v.s else "");
    if v.Text? then Text(EscapeString(v.s)) else v
  }

  /** The entity one character is written as, or the character itself. */
  function EscapeChar(c: char): string {
    if c == '&' then "&amp;"
    else if c == '<' then "&lt;"
    else if c == '>' then "&gt;"
    else if c == '"' then "&quot;"
    else if c == '\'' then "&#039;"
    else [c]
  }

  /** The escaping as one left-to-right pass over the characters. */
  function EscapeChars(s: string): string
    decreases |s|
  {
    if s == [] then [] else EscapeChar(s[0]) + EscapeChars(s[1..])
  }

  predicate IsSpecial(c: char) {
    c == '&' || c == '<' || c == '>' || c == '"' || c == '\''
  }

  /** The characters that may not appear raw in escaped text. */
  predicate IsMarkup(c: char) {
    c == '<' || c == '>' || c == '"' || c == '\''
  }

  predicate StartsWith(t: string, p: string) {
    |p| <= |t| && t[..|p|] == p
  }

  /** One of the five entities begins at position `i` of `t`. */
  predicate EntityAt(t: string, i: int)
    requires 0 <= i <= |t|
  {
    var u := t[i..];
    StartsWith(u, "&amp;") || StartsWith(u, "&lt;") || StartsWith(u, "&gt;") ||
    StartsWith(u, "&quot;") || StartsWith(u, "&#039;")
  }

  /** Text in which no markup character is raw and every `&` starts an entity. */
  predicate WellEscaped(t: string) {
    forall i :: 0 <= i < |t| ==> !IsMarkup(t[i]) && (t[i] == '&' ==> EntityAt(t, i))
  }

  /** Reading the entities back: the inverse of the escaping. */
  function Unescape(t: string): string
    decreases |t|
  {
    if t == [] then []
    else if StartsWith(t, "&amp;") then "&" + Unescape(t[5..])
    else if StartsWith(t, "&lt;") then "<" + Unescape(t[4..])
    else if StartsWith(t, "&gt;") then ">" + Unescape(t[4..])
    else if StartsWith(t, "&quot;") then "\"" + Unescape(t[6..])
    else if StartsWith(t, "&#039;") then "'" + Unescape(t[6..])
    else [t[0]] + Unescape(t[1..])
  }

  lemma {:induction false} ReplaceCharAppend(a: string, b: string, c: char, rep: string)
    ensures ReplaceChar(a + b, c, rep) == ReplaceChar(a, c, rep) + ReplaceChar(b, c, rep)
    decreases |a|
  {
    if a == [] {
      assert a + b == b;
    } else {
      ReplaceCharAppend(a[1..], b, c, rep);
      ConsOfAppend(a, b);
      AppendAssoc(if a[0] == c then rep else [a[0]], ReplaceChar(a[1..], c, rep), ReplaceChar(b, c, rep));
    }
  }

  /** The chain distributes over concatenation, as each of its steps does. */
  lemma EscapeStringAppend(a: string, b: string)
    ensures EscapeString(a + b) == EscapeString(a) + EscapeString(b)
  {
    var a1, b1 := ReplaceChar(a, '&', "&amp;"), ReplaceChar(b, '&', "&amp;");
    ReplaceCharAppend(a, b, '&', "&amp;");
    var a2, b2 := ReplaceChar(a1, '<', "&lt;"), ReplaceChar(b1, '<', "&lt;");
    ReplaceCharAppend(a1, b1, '<', "&lt;");
    var a3, b3 := ReplaceChar(a2, '>', "&gt;"), ReplaceChar(b2, '>', "&gt;");
    ReplaceCharAppend(a2, b2, '>', "&gt;");
    var a4, b4 := ReplaceChar(a3, '"', "&quot;"), ReplaceChar(b3, '"', "&quot;");
    ReplaceCharAppend(a3, b3, '"', "&quot;");
    ReplaceCharAppend(a4, b4, '\'', "&#039;");
  }

  /** On one character the chain yields that character's entity: later steps never see an earlier entity's text. */
  lemma EscapeStringChar(c: char)
    ensures EscapeString([c]) == EscapeChar(c)
  {
    var s0 := [c];
    ReplaceSingle(c, c, EscapeChar(c));
    if c == '&' {
      MarkupStepsFix("&amp;");
    } else if c == '<' {
      ReplaceCharAbsent(s0, '&', "&amp;");
      LastStepsFix("&lt;");
    } else if c == '>' {
      ReplaceCharAbsent(s0, '&', "&amp;");
      ReplaceCharAbsent(s0, '<', "&lt;");
      ReplaceCharAbsent("&gt;", '"', "&quot;");
      ReplaceCharAbsent("&gt;", '\'', "&#039;");
    } else if c == '"' {
      ReplaceCharAbsent(s0, '&', "&amp;");
      ReplaceCharAbsent(s0, '<', "&lt;");
      ReplaceCharAbsent(s0, '>', "&gt;");
      ReplaceCharAbsent("&quot;", '\'', "&#039;");
    } else {
      ReplaceCharAbsent(s0, '&', "&amp;");
      ReplaceCharAbsent(s0, '<', "&lt;");
      ReplaceCharAbsent(s0, '>', "&gt;");
      ReplaceCharAbsent(s0, '"', "&quot;");
      if c != '\'' {
        ReplaceCharAbsent(s0, '\'', "&#039;");
      }
    }
  }

  lemma ReplaceSingle(x: char, c: char, rep: string)
    ensures ReplaceChar([x], c, rep) == if x == c then rep else [x]
  {
    assert [x][1..] == [];
  }

  /** The steps after the `&` step leave alone a text without markup characters. */
  lemma MarkupStepsFix(t: string)
    requires '<' !in t && '>' !in t && '"' !in t && '\'' !in t
    ensures ReplaceChar(ReplaceChar(ReplaceChar(ReplaceChar(t, '<', "&lt;"), '>', "&gt;"), '"', "&quot;"), '\'', "&#039;") == t
  {
    ReplaceCharAbsent(t, '<', "&lt;");
    ReplaceCharAbsent(t, '>', "&gt;");
    ReplaceCharAbsent(t, '"', "&quot;");
    ReplaceCharAbsent(t, '\'', "&#039;");
  }

  /** The steps after the `<` step leave alone a text without `>`, `"` or `'`. */
  lemma LastStepsFix(t: string)
    requires '>' !in t && '"' !in t && '\'' !in t
    ensures ReplaceChar(ReplaceChar(ReplaceChar(t, '>', "&gt;"), '"', "&quot;"), '\'', "&#039;") == t
  {
    ReplaceCharAbsent(t, '>', "&gt;");
    ReplaceCharAbsent(t, '"', "&quot;");
    ReplaceCharAbsent(t, '\'', "&#039;");
  }

  /** A replacement changes nothing in a text without the pattern character. */
  lemma {:induction false} ReplaceCharAbsent(s: string, c: char, rep: string)
    requires c !in s
    ensures ReplaceChar(s, c, rep) == s
    decreases |s|
  {
    if s != [] {
      assert c !in s[1..] by {
        assert forall x :: x in s[1..] ==> x in s;
      }
      ReplaceCharAbsent(s[1..], c, rep);
      assert s == [s[0]] + s[1..];
    }
  }

  /**
    Replacing `&` first makes the chain a single pass: no entity a later
    step writes is escaped again, so the chain agrees with the
    character-by-character escaping.
   */
  lemma {:induction false} EscapeChainIsSinglePass(s: string)
    ensures EscapeString(s) == EscapeChars(s)
    decreases |s|
  {
    if s != [] {
      assert s == [s[0]] + s[1..];
      EscapeStringAppend([s[0]], s[1..]);
      EscapeStringChar(s[0]);
      EscapeChainIsSinglePass(s[1..]);
    }
  }

  lemma WellEscapedAppend(a: string, b: string)
    requires WellEscaped(a) && WellEscaped(b)
    ensures WellEscaped(a + b)
  {
    var t := a + b;
    forall i | 0 <= i < |t| && t[i] == '&' ensures EntityAt(t, i) {
      if i < |a| {
        assert EntityAt(a, i);
        var u, v := a[i..], t[i..];
        assert v == u + b;
        assert forall p :: StartsWith(u, p) ==> StartsWith(v, p) by {
          forall p | StartsWith(u, p) ensures StartsWith(v, p) {
            assert v[..|p|] == u[..|p|];
          }
        }
      } else {
        assert b[i - |a|] == t[i];
        assert EntityAt(b, i - |a|);
        assert t[i..] == b[i - |a|..];
      }
    }
    assert forall i :: 0 <= i < |t| ==> !IsMarkup(t[i]) by {
      forall i | 0 <= i < |t| ensures !IsMarkup(t[i]) {
        if i < |a| {
          assert t[i] == a[i];
        } else {
          assert t[i] == b[i - |a|];
        }
      }
    }
  }

  lemma EscapeCharWellEscaped(c: char)
    ensures WellEscaped(EscapeChar(c))
  {
    var t := EscapeChar(c);
    if IsSpecial(c) {
      assert t[1..] != [] && '&' !in t[1..];
      assert EntityAt(t, 0) by {
        assert t[0..] == t;
      }
    }
  }

  /** Escaped text has no raw markup character, and every `&` in it starts an entity. */
  lemma {:induction false} EscapeCharsWellEscaped(s: string)
    ensures WellEscaped(EscapeChars(s))
    decreases |s|
  {
    if s != [] {
      EscapeCharWellEscaped(s[0]);
      EscapeCharsWellEscaped(s[1..]);
      WellEscapedAppend(EscapeChar(s[0]), EscapeChars(s[1..]));
    }
  }

  lemma {:induction false} EscapeCharsAppend(a: string, b: string)
    ensures EscapeChars(a + b) == EscapeChars(a) + EscapeChars(b)
    decreases |a|
  {
    if a == [] {
      assert a + b == b;
    } else {
      var ab := a + b;
      assert ab[0] == a[0] && ab[1..] == a[1..] + b;
      assert EscapeChars(ab) == EscapeChar(a[0]) + EscapeChars(a[1..] + b);
      EscapeCharsAppend(a[1..], b);
    }
  }

  /** Text without any special character is its own escaping. */
  lemma {:induction false} EscapeCharsPlain(s: string)
    requires forall i :: 0 <= i < |s| ==> !IsSpecial(s[i])
    ensures EscapeChars(s) == s
    decreases |s|
  {
    if s != [] {
      EscapeCharsPlain(s[1..]);
      assert s == [s[0]] + s[1..];
    }
  }

  /** Reading back one escaped character. */
  lemma UnescapeStep(c: char, u: string)
    ensures Unescape(EscapeChar(c) + u) == [c] + Unescape(u)
  {
    if c == '&' {
      UnescapeEntity("&amp;", '&', u);
    } else if c == '<' {
      UnescapeEntity("&lt;", '<', u);
    } else if c == '>' {
      UnescapeEntity("&gt;", '>', u);
    } else if c == '"' {
      UnescapeEntity("&quot;", '"', u);
    } else if c == '\'' {
      UnescapeEntity("&#039;", '\'', u);
    } else {
      UnescapePlain(c, u);
    }
  }

  /** A character that is not special reads back as itself. */
  lemma UnescapePlain(c: char, u: string)
    requires !IsSpecial(c)
    ensures Unescape([c] + u) == [c] + Unescape(u)
  {
    var t := [c] + u;
    assert t[1..] == u;
    NoEntityAt(t);
  }

  /** Every entity starts with `&`, so a text that does not starts none of them. */
  lemma NoEntityAt(t: string)
    requires t != [] && t[0] != '&'
    ensures !StartsWith(t, "&amp;") && !StartsWith(t, "&lt;") && !StartsWith(t, "&gt;")
    ensures !StartsWith(t, "&quot;") && !StartsWith(t, "&#039;")
  {
    ExcludedByFirst(t, "&amp;");
    ExcludedByFirst(t, "&lt;");
    ExcludedByFirst(t, "&gt;");
    ExcludedByFirst(t, "&quot;");
    ExcludedByFirst(t, "&#039;");
  }

  lemma ExcludedByFirst(t: string, p: string)
    requires t != [] && p != [] && t[0] != p[0]
    ensures !StartsWith(t, p)
  {
    if |p| <= |t| {
      assert t[..|p|][0] == t[0];
    }
  }

  /** An entity at the front of a text reads back as its character. */
  lemma UnescapeEntity(e: string, c: char, u: string)
    requires e == EscapeChar(c) && IsSpecial(c)
    ensures Unescape(e + u) == [c] + Unescape(u)
  {
    var t := e + u;
    assert t[..|e|] == e && t[|e|..] == u;
    assert t[1] == e[1];
  }

  /** Unescaping the escaped text gives the original text back: no information is lost. */
  lemma {:induction false} EscapeRoundTrip(s: string)
    ensures Unescape(EscapeChars(s)) == s
    decreases |s|
  {
    if s != [] {
      UnescapeStep(s[0], EscapeChars(s[1..]));
      EscapeRoundTrip(s[1..]);
    }
  }

  /**
    What `escapeHtml` promises for a string: the result is safe to place in
    markup, and it still says exactly what the string said.
   */
  lemma EscapeHtmlIsSafe(v: Resolved)
    requires v.Text?
    ensures EscapeHtml(v).Text? && WellEscaped(EscapeHtml(v).s)
    ensures Unescape(EscapeHtml(v).s) == v.s
  {
    EscapeCharsWellEscaped(v.s);
    EscapeRoundTrip(v.s);
  }

  // Worked cases of the escaping, for any plain text around the special character.

  /** Text without any of the five special characters. */
  predicate Plain(s: string) {
    forall i :: 0 <= i < |s| ==> !IsSpecial(s[i])
  }

  /** A single character is escaped as its entity. */
  lemma EscapeCharsSingle(c: char)
    ensures EscapeChars([c]) == EscapeChar(c)
  {
    assert [c][1..] == [];
  }

  /** One character between two plain texts: only that character changes. */
  lemma EscapeBetween(a: string, c: char, b: string)
    requires Plain(a) && Plain(b)
    ensures EscapeChars(a + [c] + b) == a + EscapeChar(c) + b
  {
    EscapeCharsAppend(a + [c], b);
    EscapeCharsAppend(a, [c]);
    EscapeCharsSingle(c);
    EscapeCharsPlain(a);
    EscapeCharsPlain(b);
  }

  /** Plain text between the same character on both sides: the text stays, both ends are escaped. */
  lemma EscapeAround(c: char, w: string)
    requires Plain(w)
    ensures EscapeChars([c] + w + [c]) == EscapeChar(c) + w + EscapeChar(c)
  {
    EscapeCharsAppend([c] + w, [c]);
    EscapeCharsAppend([c], w);
    EscapeCharsSingle(c);
    EscapeCharsPlain(w);
  }

  /** A tag name in angle brackets, as in `<script>`: the brackets become `&lt;` and `&gt;`. */
  lemma EscapeTagExample(name: string)
    requires Plain(name)
    ensures EscapeChars("<" + name + ">") == "&lt;" + name + "&gt;"
  {
    EscapeCharsAppend("<" + name, ">");
    EscapeCharsAppend("<", name);
    EscapeCharsSingle('<');
    EscapeCharsSingle('>');
    EscapeCharsPlain(name);
  }

  /** A quoted word, as in `"quotes"`: both quotes become `&quot;`. */
  lemma EscapeQuoteExample(word: string)
    requires Plain(word)
    ensures EscapeChars("\"" + word + "\"") == "&quot;" + word + "&quot;"
  {
    EscapeAround('"', word);
  }

  /** An apostrophe inside a word, as in `it's`, becomes `&#039;`. */
  lemma EscapeApostropheExample(before: string, after: string)
    requires Plain(before) && Plain(after)
    ensures EscapeChars(before + "'" + after) == before + "&#039;" + after
  {
    EscapeBetween(before, '\'', after);
  }

  /** Two plain words joined by a spaced ampersand, as in `a & b`: only the `&` becomes `&amp;`. */
  lemma EscapeAmpersandExample(a: string, b: string)
    requires Plain(a) && Plain(b)
    ensures EscapeChars(a + " & " + b) == a + " &amp; " + b
  {
    var left, right := a + " ", " " + b;
    assert Plain(left) by {
      assert forall i :: 0 <= i < |a| ==> left[i] == a[i];
    }
    assert Plain(right) by {
      assert forall i :: 1 <= i < |right| ==> right[i] == b[i - 1];
    }
    EscapeBetween(left, '&', right);
    assert a + " & " + b == left + ['&'] + right;
    assert a + " &amp; " + b == left + EscapeChar('&') + right;
  }
}
