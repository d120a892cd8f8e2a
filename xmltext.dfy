/**
 * XML escaping of the five predefined entities (section 4.6 of XML 1.0), as
 * qfx.py applies it to descriptions, with the inverse unescaping used to
 * state what the escape preserves.
 */
module XmlText {
  import opened Text

  function EscapeChar(c: char): string {
    if c == '&' then "&amp;"
    else if c == '<' then "&lt;"
    else if c == '>' then "&gt;"
    else if c == '"' then "&quot;"
    else if c == '\'' then "&apos;"
    else [c]
  }

  /** xml_escape: five chained replacements, '&' first. */
  function XmlEscape(text: string): string {
    ReplaceChar(ReplaceChar(ReplaceChar(ReplaceChar(ReplaceChar(
      text, '&', "&amp;"), '<', "&lt;"), '>', "&gt;"), '"', "&quot;"), '\'', "&apos;")
  }

  /** The reference reading of the escape: each character replaced by its entity on its own. */
  function EscapeEach(s: string): string {
    if s == [] then [] else EscapeChar(s[0]) + EscapeEach(s[1..])
  }

  lemma XmlEscapeAppend(a: string, b: string)
    ensures XmlEscape(a + b) == XmlEscape(a) + XmlEscape(b)
  {
    ReplaceCharAppend(a, b, '&', "&amp;");
    var a1, b1 := ReplaceChar(a, '&', "&amp;"), ReplaceChar(b, '&', "&amp;");
    ReplaceCharAppend(a1, b1, '<', "&lt;");
    var a2, b2 := ReplaceChar(a1, '<', "&lt;"), ReplaceChar(b1, '<', "&lt;");
    ReplaceCharAppend(a2, b2, '>', "&gt;");
    var a3, b3 := ReplaceChar(a2, '>', "&gt;"), ReplaceChar(b2, '>', "&gt;");
    ReplaceCharAppend(a3, b3, '"', "&quot;");
    var a4, b4 := ReplaceChar(a3, '"', "&quot;"), ReplaceChar(b3, '"', "&quot;");
    ReplaceCharAppend(a4, b4, '\'', "&apos;");
  }

  /** A character with no entity passes through the whole chain. */
  lemma EscapePlain(c: char)
    requires c != '&' && c != '<' && c != '>' && c != '"' && c != '\''
    ensures XmlEscape([c]) == [c]
  {
    ReplaceCharSingle(c, '&', "&amp;");
    ReplaceCharSingle(c, '<', "&lt;");
    ReplaceCharSingle(c, '>', "&gt;");
    ReplaceCharSingle(c, '"', "&quot;");
    ReplaceCharSingle(c, '\'', "&apos;");
  }

  /** The entities hold none of the characters replaced after '&'. */
  lemma EntityFree(e: string)
    requires e == "&amp;" || e == "&lt;" || e == "&gt;" || e == "&quot;"
    ensures '<' !in e && '>' !in e && '"' !in e && '\'' !in e
  {
  }

  lemma EscapeAmp(c: char, e: string)
    requires c == '&' && e == "&amp;"
    ensures XmlEscape([c]) == e
  {
    EntityFree(e);
    var s1 := ReplaceChar([c], '&', "&amp;");
    ReplaceCharSingle(c, '&', "&amp;");
    var s2 := ReplaceChar(s1, '<', "&lt;");
    ReplaceCharAbsent(s1, '<', "&lt;");
    var s3 := ReplaceChar(s2, '>', "&gt;");
    ReplaceCharAbsent(s2, '>', "&gt;");
    var s4 := ReplaceChar(s3, '"', "&quot;");
    ReplaceCharAbsent(s3, '"', "&quot;");
    var s5 := ReplaceChar(s4, '\'', "&apos;");
    ReplaceCharAbsent(s4, '\'', "&apos;");
  }

  lemma EscapeLt(c: char, e: string)
    requires c == '<' && e == "&lt;"
    ensures XmlEscape([c]) == e
  {
    EntityFree(e);
    var s1 := ReplaceChar([c], '&', "&amp;");
    ReplaceCharSingle(c, '&', "&amp;");
    var s2 := ReplaceChar(s1, '<', "&lt;");
    ReplaceCharSingle(c, '<', "&lt;");
    var s3 := ReplaceChar(s2, '>', "&gt;");
    ReplaceCharAbsent(s2, '>', "&gt;");
    var s4 := ReplaceChar(s3, '"', "&quot;");
    ReplaceCharAbsent(s3, '"', "&quot;");
    var s5 := ReplaceChar(s4, '\'', "&apos;");
    ReplaceCharAbsent(s4, '\'', "&apos;");
  }

  lemma EscapeGt(c: char, e: string)
    requires c == '>' && e == "&gt;"
    ensures XmlEscape([c]) == e
  {
    EntityFree(e);
    var s1 := ReplaceChar([c], '&', "&amp;");
    ReplaceCharSingle(c, '&', "&amp;");
    var s2 := ReplaceChar(s1, '<', "&lt;");
    ReplaceCharSingle(c, '<', "&lt;");
    var s3 := ReplaceChar(s2, '>', "&gt;");
    ReplaceCharSingle(c, '>', "&gt;");
    var s4 := ReplaceChar(s3, '"', "&quot;");
    ReplaceCharAbsent(s3, '"', "&quot;");
    var s5 := ReplaceChar(s4, '\'', "&apos;");
    ReplaceCharAbsent(s4, '\'', "&apos;");
  }

  lemma EscapeQuot(c: char, e: string)
    requires c == '"' && e == "&quot;"
    ensures XmlEscape([c]) == e
  {
    EntityFree(e);
    var s1 := ReplaceChar([c], '&', "&amp;");
    ReplaceCharSingle(c, '&', "&amp;");
    var s2 := ReplaceChar(s1, '<', "&lt;");
    ReplaceCharSingle(c, '<', "&lt;");
    var s3 := ReplaceChar(s2, '>', "&gt;");
    ReplaceCharSingle(c, '>', "&gt;");
    var s4 := ReplaceChar(s3, '"', "&quot;");
    ReplaceCharSingle(c, '"', "&quot;");
    var s5 := ReplaceChar(s4, '\'', "&apos;");
    ReplaceCharAbsent(s4, '\'', "&apos;");
  }

  lemma EscapeApos(c: char, e: string)
    requires c == '\'' && e == "&apos;"
    ensures XmlEscape([c]) == e
  {
    var s1 := ReplaceChar([c], '&', "&amp;");
    ReplaceCharSingle(c, '&', "&amp;");
    var s2 := ReplaceChar(s1, '<', "&lt;");
    ReplaceCharSingle(c, '<', "&lt;");
    var s3 := ReplaceChar(s2, '>', "&gt;");
    ReplaceCharSingle(c, '>', "&gt;");
    var s4 := ReplaceChar(s3, '"', "&quot;");
    ReplaceCharSingle(c, '"', "&quot;");
    var s5 := ReplaceChar(s4, '\'', "&apos;");
    ReplaceCharSingle(c, '\'', "&apos;");
  }

  lemma XmlEscapeChar(c: char)
    ensures XmlEscape([c]) == EscapeChar(c)
  {
    if c == '&' {
      EscapeAmp(c, "&amp;");
    } else if c == '<' {
      EscapeLt(c, "&lt;");
    } else if c == '>' {
      EscapeGt(c, "&gt;");
    } else if c == '"' {
      EscapeQuot(c, "&quot;");
    } else if c == '\'' {
      EscapeApos(c, "&apos;");
    } else {
      EscapePlain(c);
    }
  }

  /** Replacing '&' before the others makes the chain act character by character. */
  lemma {:induction false} XmlEscapeIsPerChar(s: string)
    ensures XmlEscape(s) == EscapeEach(s)
  {
    if s != [] {
      assert s == [s[0]] + s[1..];
      XmlEscapeAppend([s[0]], s[1..]);
      XmlEscapeChar(s[0]);
      XmlEscapeIsPerChar(s[1..]);
    }
  }

  predicate StartsWithEntity(t: string) {
    StartsWith(t, "&amp;") || StartsWith(t, "&lt;") || StartsWith(t, "&gt;")
    || StartsWith(t, "&quot;") || StartsWith(t, "&apos;")
  }

  /** Reverses the five entities (the inverse partner of XmlEscape). */
  function XmlUnescape(s: string): string
    decreases |s|
  {
    if s == [] then []
    else if StartsWith(s, "&amp;") then "&" + XmlUnescape(s[5..])
    else if StartsWith(s, "&lt;") then "<" + XmlUnescape(s[4..])
    else if StartsWith(s, "&gt;") then ">" + XmlUnescape(s[4..])
    else if StartsWith(s, "&quot;") then "\"" + XmlUnescape(s[6..])
    else if StartsWith(s, "&apos;") then "'" + XmlUnescape(s[6..])
    else [s[0]] + XmlUnescape(s[1..])
  }

  lemma UnescapeAmp(e: string, rest: string)
    requires e == "&amp;"
    ensures XmlUnescape(e + rest) == "&" + XmlUnescape(rest)
  {
    var t := e + rest;
    assert t[..5] == e && t[5..] == rest;
  }

  lemma UnescapeLt(e: string, rest: string)
    requires e == "&lt;"
    ensures XmlUnescape(e + rest) == "<" + XmlUnescape(rest)
  {
    var t := e + rest;
    assert t[1] == 'l';
    assert t[..4] == e && t[4..] == rest;
  }

  lemma UnescapeGt(e: string, rest: string)
    requires e == "&gt;"
    ensures XmlUnescape(e + rest) == ">" + XmlUnescape(rest)
  {
    var t := e + rest;
    assert t[1] == 'g';
    assert t[..4] == e && t[4..] == rest;
  }

  lemma UnescapeQuot(e: string, rest: string)
    requires e == "&quot;"
    ensures XmlUnescape(e + rest) == "\"" + XmlUnescape(rest)
  {
    var t := e + rest;
    assert t[1] == 'q';
    assert t[..6] == e && t[6..] == rest;
  }

  lemma UnescapeApos(e: string, rest: string)
    requires e == "&apos;"
    ensures XmlUnescape(e + rest) == "'" + XmlUnescape(rest)
  {
    var t := e + rest;
    assert t[1] == 'a' && t[2] == 'p';
    assert t[..6] == e && t[6..] == rest;
  }

  lemma UnescapePlain(c: char, rest: string)
    requires c != '&'
    ensures XmlUnescape([c] + rest) == [c] + XmlUnescape(rest)
  {
    var t := [c] + rest;
    assert t[0] == c && t[1..] == rest;
  }

  lemma UnescapeStep(c: char, rest: string)
    ensures XmlUnescape(EscapeChar(c) + rest) == [c] + XmlUnescape(rest)
  {
    if c == '&' {
      UnescapeAmp(EscapeChar(c), rest);
    } else if c == '<' {
      UnescapeLt(EscapeChar(c), rest);
    } else if c == '>' {
      UnescapeGt(EscapeChar(c), rest);
    } else if c == '"' {
      UnescapeQuot(EscapeChar(c), rest);
    } else if c == '\'' {
      UnescapeApos(EscapeChar(c), rest);
    } else {
      UnescapePlain(c, rest);
    }
  }

  /** Unescaping gives back the original text exactly. */
  lemma {:induction false} XmlRoundTrip(s: string)
    ensures XmlUnescape(XmlEscape(s)) == s
  {
    XmlEscapeIsPerChar(s);
    EscapeEachRoundTrip(s);
  }

  lemma {:induction false} EscapeEachRoundTrip(s: string)
    ensures XmlUnescape(EscapeEach(s)) == s
  {
    if s != [] {
      UnescapeStep(s[0], EscapeEach(s[1..]));
      EscapeEachRoundTrip(s[1..]);
    }
  }

  /** The four characters that must never appear raw in escaped text. */
  predicate Markup(ch: char) {
    ch == '<' || ch == '>' || ch == '"' || ch == '\''
  }

  /** No raw markup character, and every '&' starts one of the five entities. */
  predicate WellEscaped(t: string) {
    && (forall i :: 0 <= i < |t| ==> !Markup(t[i]))
    && (forall i :: 0 <= i < |t| && t[i] == '&' ==> StartsWithEntity(t[i..]))
  }

  /** What one escaped character contributes in front of well-escaped text. */
  predicate EscapedHead(e: string, rest: string) {
    && (forall i :: 0 <= i < |e| ==> !Markup(e[i]))
    && (forall i :: 0 < i < |e| ==> e[i] != '&')
    && (|e| > 0 && e[0] == '&' ==> StartsWithEntity(e + rest))
  }

  lemma WellEscapedPrepend(e: string, rest: string)
    requires EscapedHead(e, rest) && WellEscaped(rest)
    ensures WellEscaped(e + rest)
  {
    var t := e + rest;
    forall i | 0 <= i < |t| && t[i] == '&' ensures StartsWithEntity(t[i..]) {
      if i < |e| {
        assert t[i] == e[i];
        assert t[i..] == t;
      } else {
        assert t[i] == rest[i - |e|];
        assert t[i..] == rest[i - |e|..];
      }
    }
    forall i | 0 <= i < |t| ensures !Markup(t[i]) {
      if i < |e| {
        assert t[i] == e[i];
      } else {
        assert t[i] == rest[i - |e|];
      }
    }
  }

  lemma EntityHead(e: string, rest: string)
    requires e == "&amp;" || e == "&lt;" || e == "&gt;" || e == "&quot;" || e == "&apos;"
    ensures EscapedHead(e, rest)
  {
    PrefixOfAppend(e, rest, e);
  }

  lemma EscapeCharHead(c: char, rest: string)
    ensures EscapedHead(EscapeChar(c), rest)
  {
    if c == '&' || c == '<' || c == '>' || c == '"' || c == '\'' {
      EntityHead(EscapeChar(c), rest);
    }
  }

  /**
   * The escaped text holds no raw '<', '>', '"' or "'", and every '&' in it
   * starts one of the five entities.
   */
  lemma XmlEscapeSafe(s: string)
    ensures WellEscaped(XmlEscape(s))
  {
    XmlEscapeIsPerChar(s);
    EscapeEachSafe(s);
  }

  lemma {:induction false} EscapeEachSafe(s: string)
    ensures WellEscaped(EscapeEach(s))
  {
    if s != [] {
      EscapeEachSafe(s[1..]);
      EscapeCharHead(s[0], EscapeEach(s[1..]));
      WellEscapedPrepend(EscapeChar(s[0]), EscapeEach(s[1..]));
    }
  }
}
