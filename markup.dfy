/** What a tag renders to, as functions of its state: the void-element list,
    the opening tag with its attributes, the closing tag and the whole element.
    A small reader of attribute lists shows that the rendered attribute list
    loses nothing for attribute names without `=`. */
module Markup {
  import opened Ascii
  import opened Escape
  import opened Results
  import opened Attributes

  /** The void elements of W3C HTML 5.1, section 8.1.2: elements that cannot
      have any contents and have no closing tag. */
  const VoidElements: seq<string> := [
    "area", "base", "br", "col", "embed", "hr", "img", "input",
    "keygen", "link", "menuitem", "meta", "param", "source", "track", "wbr"
  ]

  /** Exact, case-sensitive membership: callers lower-case the name first. */
  function IsVoidName(name: string): (r: bool)
    ensures r ==> IsLower(name)
  {
    name in VoidElements
  }

  /** One attribute as it appears in the opening tag: ` name="escaped value"`. */
  function AttrSegment(a: Attr): string {
    " " + a.0 + "=\"" + EscAttr(a.1) + "\""
  }

  /** All attributes, in list order. */
  function AttrsText(attrs: seq<Attr>): string {
    if attrs == [] then "" else AttrSegment(attrs[0]) + AttrsText(attrs[1..])
  }

  function OpeningTag(name: string, attrs: seq<Attr>): (r: string)
    ensures |name| + 2 <= |r| && r[0] == '<' && r[|r| - 1] == '>'
  {
    "<" + name + AttrsText(attrs) + ">"
  }

  function ClosingTag(name: string): string {
    "</" + name + ">"
  }

  /** A whole element: a void one is its opening tag alone, any other one is
      wrapped around its content by the opening and closing tags. */
  function Rendered(name: string, isVoid: bool, attrs: seq<Attr>, content: string): (r: string)
    ensures isVoid <==> |r| == |OpeningTag(name, attrs)|
    ensures !isVoid ==> |r| == |OpeningTag(name, attrs)| + |content| + |name| + 3
  {
    if isVoid then OpeningTag(name, attrs) else OpeningTag(name, attrs) + content + ClosingTag(name)
  }

  /** Adding an attribute at the end adds its segment at the end. */
  lemma {:induction false} AttrsTextSnoc(attrs: seq<Attr>, a: Attr)
    ensures AttrsText(attrs + [a]) == AttrsText(attrs) + AttrSegment(a)
  {
    if attrs == [] {
      assert attrs + [a] == [a];
    } else {
      assert (attrs + [a])[1..] == attrs[1..] + [a];
      AttrsTextSnoc(attrs[1..], a);
    }
  }

  /** Splits `s` at the first `c`: the part before it and the part after it. */
  function SplitAt(s: string, c: char): (r: Option<(string, string)>)
    ensures r.None? <==> c !in s
    ensures r.Some? ==> c !in r.value.0 && s == r.value.0 + [c] + r.value.1
  {
    if s == [] then None
    else if s[0] == c then Some(([], s[1..]))
    else match SplitAt(s[1..], c)
      case None => None
      case Some((before, after)) => Some(([s[0]] + before, after))
  }

  /** Reads an attribute list back from its rendered text: each entry is a
      space, a name running up to `=`, and a value between double quotes. */
  function ParseAttrs(s: string): Option<seq<Attr>>
    decreases |s|
  {
    if s == [] then Some([])
    else if s[0] != ' ' then None
    else match SplitAt(s[1..], '=')
      case None => None
      case Some((key, rest)) =>
        if rest == [] || rest[0] != '"' then None
        else match SplitAt(rest[1..], '"')
          case None => None
          case Some((value, tail)) =>
            match ParseAttrs(tail)
              case None => None
              case Some(more) => Some([(key, Unescape(value))] + more)
  }

  /** Splitting right before a fresh separator finds it. */
  lemma {:induction false} SplitAtFirst(p: string, c: char, t: string)
    requires c !in p
    ensures SplitAt(p + [c] + t, c) == Some((p, t))
  {
    var r := SplitAt(p + [c] + t, c);
    assert c in p + [c] + t;
    assert r.Some? && c !in r.value.0 && p + [c] + t == r.value.0 + [c] + r.value.1;
    SplitUnique(p, t, r.value.0, r.value.1, c);
  }

  /** The part before the first separator is determined by the string. */
  lemma {:induction false} SplitUnique(p: string, t: string, p': string, t': string, c: char)
    requires c !in p && c !in p'
    requires p + [c] + t == p' + [c] + t'
    ensures p == p' && t == t'
  {
    if p == [] || p' == [] {
      assert (p + [c] + t)[0] == c && (p' + [c] + t')[0] == c;
      assert p == [] && p' == [];
      assert t == (p + [c] + t)[1..] && t' == (p' + [c] + t')[1..];
    } else {
      assert p[0] == (p + [c] + t)[0] == p'[0];
      assert (p + [c] + t)[1..] == p[1..] + [c] + t;
      assert (p' + [c] + t')[1..] == p'[1..] + [c] + t';
      assert forall x :: x in p[1..] ==> x in p;
      assert forall x :: x in p'[1..] ==> x in p';
      SplitUnique(p[1..], t, p'[1..], t', c);
      assert p == [p[0]] + p[1..] && p' == [p'[0]] + p'[1..];
    }
  }

  /** A name the reader can delimit: it holds no `=`. */
  predicate PlainKeys(attrs: seq<Attr>) {
    forall i :: 0 <= i < |attrs| ==> '=' !in attrs[i].0
  }

  /** The rendered attribute list reads back as the list itself, values
      included, whatever characters the values hold. */
  lemma {:induction false} ParseAttrsText(attrs: seq<Attr>)
    requires PlainKeys(attrs)
    ensures ParseAttrs(AttrsText(attrs)) == Some(attrs)
  {
    if attrs != [] {
      var rest := attrs[1..];
      assert PlainKeys(rest) by {
        forall i | 0 <= i < |rest| ensures '=' !in rest[i].0 {
          assert rest[i] == attrs[i + 1];
        }
      }
      ParseAttrsText(rest);
      assert '=' !in attrs[0].0;
      ParseCons(attrs[0], rest);
      assert [attrs[0]] + rest == attrs;
    }
  }

  /** One more attribute in front of a list that reads back reads back too. */
  lemma ParseCons(a: Attr, rest: seq<Attr>)
    requires '=' !in a.0 && ParseAttrs(AttrsText(rest)) == Some(rest)
    ensures ParseAttrs(AttrsText([a] + rest)) == Some([a] + rest)
  {
    var (k, v) := a;
    var tail := AttrsText(rest);
    assert ([a] + rest)[1..] == rest;
    assert AttrsText([a] + rest) == " " + k + "=\"" + EscAttr(v) + "\"" + tail;
    ParseSegment(k, EscAttr(v), tail);
    UnescapeEscAttr(v);
  }

  /** One segment in front of more text reads back as its name and escaped value. */
  lemma ParseSegment(k: string, e: string, tail: string)
    requires '=' !in k && '"' !in e
    ensures ParseAttrs(" " + k + "=\"" + e + "\"" + tail) ==
      match ParseAttrs(tail)
        case None => None
        case Some(more) => Some([(k, Unescape(e))] + more)
  {
    var rest := "\"" + e + "\"" + tail;
    SegmentShape(' ', k, '=', '"', e, tail);
    SplitAtFirst(k, '=', rest);
    SplitAtFirst(e, '"', tail);
  }

  /** Attribute names are written out unescaped, so a name holding `="` can
      pose as a whole further attribute: two different lists then render the
      same text, which is why the reader above needs names without `=`. */
  lemma AttrsTextCollision(a: string, x: string, b: string, y: string)
    requires EscAttr(x) == x
    ensures [(a + "=\"" + x + "\"" + " " + b, y)] != [(a, x), (b, y)]
    ensures AttrsText([(a + "=\"" + x + "\"" + " " + b, y)]) == AttrsText([(a, x), (b, y)])
  {
    var one: seq<Attr> := [(a + "=\"" + x + "\"" + " " + b, y)];
    var two: seq<Attr> := [(a, x), (b, y)];
    assert one[1..] == [] && two[1..] == [(b, y)] && two[1..][1..] == [];
    Regroup(" ", a, "=\"", x, "\"", b, EscAttr(y));
  }

  /** ` a="x" b` + `="e"` as one segment equals ` a="x"` + ` b="e"` as two. */
  lemma Regroup<T>(sp: seq<T>, a: seq<T>, eq: seq<T>, x: seq<T>, q: seq<T>, b: seq<T>, e: seq<T>)
    ensures sp + (a + eq + x + q + sp + b) + eq + e + q == (sp + a + eq + x + q) + (sp + b + eq + e + q + [])
  {
  }

  /** Tag names are written out unescaped too, so a name holding a space can
      pose as an attribute: a tag without attributes and a tag with one render
      the same opening tag, even though no attribute name holds `=`. */
  lemma OpeningTagCollision(n: string, a: string, x: string)
    requires EscAttr(x) == x
    ensures OpeningTag(n + " " + a + "=\"" + x + "\"", []) == OpeningTag(n, [(a, x)])
  {
    assert [(a, x)][1..] == [];
    assert AttrsText([(a, x)]) == " " + a + "=\"" + x + "\"";
  }

  /** Where the separators of a segment sit. */
  lemma SegmentShape<T>(sp: T, k: seq<T>, eq: T, q: T, e: seq<T>, tail: seq<T>)
    ensures var s := [sp] + k + [eq, q] + e + [q] + tail;
      var rest := [q] + e + [q] + tail;
      s != [] && s[0] == sp && s[1..] == k + [eq] + rest &&
      rest[0] == q && rest[1..] == e + [q] + tail
  {
    var s := [sp] + k + [eq, q] + e + [q] + tail;
    var rest := [q] + e + [q] + tail;
    assert s == [sp] + (k + [eq] + rest);
  }

  /** The first `>` of a rendered element ends its opening tag, because
      attribute values never hold a bare `>`: what follows is the content and
      the closing tag, or nothing for a void element. */
  lemma RenderedSplits(name: string, isVoid: bool, attrs: seq<Attr>, content: string)
    requires '>' !in name && forall i :: 0 <= i < |attrs| ==> '>' !in attrs[i].0
    ensures SplitAt(Rendered(name, isVoid, attrs, content), '>') ==
      Some(("<" + name + AttrsText(attrs), if isVoid then "" else content + ClosingTag(name)))
  {
    var head := "<" + name + AttrsText(attrs);
    var rest := if isVoid then "" else content + ClosingTag(name);
    AttrsTextNoClose(attrs);
    assert '>' !in head;
    RenderedShape(name, isVoid, attrs, content);
    SplitAtFirst(head, '>', rest);
  }

  /** A rendered element is its opening tag without the `>`, the `>`, and the rest. */
  lemma RenderedShape(name: string, isVoid: bool, attrs: seq<Attr>, content: string)
    ensures Rendered(name, isVoid, attrs, content) ==
      ("<" + name + AttrsText(attrs)) + ['>'] + (if isVoid then "" else content + ClosingTag(name))
  {
    var head := "<" + name + AttrsText(attrs);
    if !isVoid {
      assert head + ">" + content + ClosingTag(name) == head + ">" + (content + ClosingTag(name));
    }
  }

  /** Without `>` in the names, the attribute text holds none. */
  lemma {:induction false} AttrsTextNoClose(attrs: seq<Attr>)
    requires forall i :: 0 <= i < |attrs| ==> '>' !in attrs[i].0
    ensures '>' !in AttrsText(attrs)
  {
    if attrs != [] {
      AttrsTextNoClose(attrs[1..]);
      assert '>' !in EscAttr(attrs[0].1);
    }
  }
}
