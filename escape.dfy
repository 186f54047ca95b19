/** The two escaping modes Tag uses, both `htmlspecialchars` with the HTML5
    entity table: text content (ENT_NOQUOTES) escapes `&`, `<` and `>`;
    attribute values (ENT_COMPAT) additionally escape the double quote and
    leave the single quote alone. Double encoding is on, so every `&` is
    escaped, including one that already starts an entity. */
module Escape {

  /** Text-content replacement of one character. */
  function TextChar(c: char): (r: string)
    ensures r == [c] <==> c != '&' && c != '<' && c != '>'
    ensures 1 <= |r| && r != [c] ==> r[0] == '&'
    ensures '<' !in r && '>' !in r
  {
    if c == '&' then "&amp;"
    else if c == '<' then "&lt;"
    else if c == '>' then "&gt;"
    else [c]
  }

  /** Attribute-value replacement of one character. */
  function AttrChar(c: char): (r: string)
    ensures r == [c] <==> c != '&' && c != '<' && c != '>' && c != '"'
    ensures 1 <= |r| && r != [c] ==> r[0] == '&'
    ensures '<' !in r && '>' !in r && '"' !in r
  {
    if c == '"' then "&quot;" else TextChar(c)
  }

  /** `htmlspecialchars($s, ENT_NOQUOTES | ENT_HTML5)`. */
  function EscText(s: string): (r: string)
    ensures '<' !in r && '>' !in r
  {
    if s == [] then [] else TextChar(s[0]) + EscText(s[1..])
  }

  /** `htmlspecialchars($s, ENT_COMPAT | ENT_HTML5)`. */
  function EscAttr(s: string): (r: string)
    ensures '<' !in r && '>' !in r && '"' !in r
  {
    if s == [] then [] else AttrChar(s[0]) + EscAttr(s[1..])
  }

  predicate StartsWith(s: string, p: string) {
    |p| <= |s| && forall i :: 0 <= i < |p| ==> s[i] == p[i]
  }

  /** Decoder for the four entities the two modes produce; every other
      character, and an `&` that starts none of them, reads as itself. */
  function Unescape(s: string): string
    decreases |s|
  {
    if s == [] then []
    else if s[0] != '&' then [s[0]] + Unescape(s[1..])
    else if StartsWith(s, "&amp;") then "&" + Unescape(s[5..])
    else if StartsWith(s, "&lt;") then "<" + Unescape(s[4..])
    else if StartsWith(s, "&gt;") then ">" + Unescape(s[4..])
    else if StartsWith(s, "&quot;") then "\"" + Unescape(s[6..])
    else "&" + Unescape(s[1..])
  }

  /** Decoding an escaped character and then anything reads back the character. */
  lemma UnescapeAttrChar(c: char, t: string)
    ensures Unescape(AttrChar(c) + t) == [c] + Unescape(t)
  {
    var s := AttrChar(c) + t;
    var n := |AttrChar(c)|;
    assert s[..n] == AttrChar(c) && s[n..] == t;
    if c == '&' {
      assert StartsWith(s, "&amp;");
    } else if c == '<' {
      assert s[1] == 'l' && StartsWith(s, "&lt;");
    } else if c == '>' {
      assert s[1] == 'g' && StartsWith(s, "&gt;");
    } else if c == '"' {
      assert s[1] == 'q' && StartsWith(s, "&quot;");
    } else {
      assert s[1..] == t;
    }
  }

  /** Attribute escaping loses nothing: decoding gives the value back. */
  lemma {:induction false} UnescapeEscAttr(s: string)
    ensures Unescape(EscAttr(s)) == s
  {
    if s != [] {
      UnescapeAttrChar(s[0], EscAttr(s[1..]));
      UnescapeEscAttr(s[1..]);
    }
  }

  /** Text escaping loses nothing: decoding gives the text back, quotes included. */
  lemma {:induction false} UnescapeEscText(s: string)
    ensures Unescape(EscText(s)) == s
  {
    if s != [] {
      if s[0] == '"' {
        assert ("\"" + EscText(s[1..]))[1..] == EscText(s[1..]);
      } else {
        assert TextChar(s[0]) == AttrChar(s[0]);
        UnescapeAttrChar(s[0], EscText(s[1..]));
      }
      UnescapeEscText(s[1..]);
    }
  }

  /** A string holding none of `& < >` is its own text escape: both quotes stay bare. */
  lemma {:induction false} EscTextPlain(s: string)
    requires forall i :: 0 <= i < |s| ==> s[i] != '&' && s[i] != '<' && s[i] != '>'
    ensures EscText(s) == s
  {
    if s != [] {
      EscTextPlain(s[1..]);
      assert s == [s[0]] + s[1..];
    }
  }

  /** A string holding none of `& < > "` is its own attribute escape: the single quote stays bare. */
  lemma {:induction false} EscAttrPlain(s: string)
    requires forall i :: 0 <= i < |s| ==> s[i] != '&' && s[i] != '<' && s[i] != '>' && s[i] != '"'
    ensures EscAttr(s) == s
  {
    if s != [] {
      EscAttrPlain(s[1..]);
      assert s == [s[0]] + s[1..];
    }
  }

  /** Text escaping maps a concatenation to the concatenation of the escapes,
      so appending escaped pieces one by one equals escaping the whole. */
  lemma {:induction false} EscTextAppend(a: string, b: string)
    ensures EscText(a + b) == EscText(a) + EscText(b)
  {
    if a != [] {
      assert (a + b)[0] == a[0] && (a + b)[1..] == a[1..] + b;
      EscTextAppend(a[1..], b);
      calc {
        EscText(a + b);
        TextChar((a + b)[0]) + EscText((a + b)[1..]);
        TextChar(a[0]) + EscText(a[1..] + b);
        TextChar(a[0]) + (EscText(a[1..]) + EscText(b));
        (TextChar(a[0]) + EscText(a[1..])) + EscText(b);
      }
    } else {
      assert a + b == b;
    }
  }
}
