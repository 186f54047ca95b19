/** Clients of Tag that pin its observable output on concrete inputs, in the
    manner of the library's own test suite (tests/TagTest.php). */
module Scenarios {
  import opened Ascii
  import opened Escape
  import opened Results
  import opened Attributes
  import opened Markup
  import opened Html

  lemma LowerParagraph()
    ensures Lower("P") == "p" && !IsVoidName("p")
  {
  }

  lemma LowerBreak()
    ensures Lower("br") == "br" && IsVoidName("br")
  {
    var b := Lower("br");
    assert b[0] == 'b' && b[1] == 'r';
  }

  lemma LowerImage()
    ensures Lower("IMG") == "img" && IsVoidName("img")
  {
    var i := Lower("IMG");
    assert i[0] == 'i' && i[1] == 'm' && i[2] == 'g';
  }

  lemma LowerClass()
    ensures Lower("Class") == "class" && Lower("CLASS") == "class"
  {
    var c := Lower("Class");
    assert c[0] == 'c' && c[1] == 'l' && c[2] == 'a' && c[3] == 's' && c[4] == 's';
    var d := Lower("CLASS");
    assert d[0] == 'c' && d[1] == 'l' && d[2] == 'a' && d[3] == 's' && d[4] == 's';
  }

  lemma LowerAlt()
    ensures Lower("Alt") == "alt"
  {
    var a := Lower("Alt");
    assert a[0] == 'a' && a[1] == 'l' && a[2] == 't';
  }

  /** Text escaping leaves both quotes alone. */
  lemma EscTextSample()
    ensures EscText("'<\"&>") == "'&lt;\"&amp;&gt;"
  {
    var s := "'<\"&>";
    EscTextTail();
    assert s[1..] == "<\"&>" && s[2..] == "\"&>" && s[3..] == "&>";
  }

  lemma EscTextTail()
    ensures EscText("&>") == "&amp;&gt;"
  {
    var s := "&>";
    assert s[1..] == ">" && s[2..] == "";
  }

  /** Attribute escaping escapes the double quote and leaves the single one. */
  lemma EscAttrSample()
    ensures EscAttr("\"'<>") == "&quot;'&lt;&gt;"
  {
    var s := "\"'<>";
    assert s[1..] == "'<>" && s[2..] == "<>" && s[3..] == ">" && s[4..] == "";
  }

  lemma RenderBr()
    ensures Rendered("br", true, [], "") == "<br>"
  {
  }

  lemma RenderParagraph()
    ensures Rendered("p", false, [("class", "foo")], "<br>") == "<p class=\"foo\"><br></p>"
  {
    EscAttrPlain("foo");
    OpeningSingle("p", "class", "foo", "foo");
    ParagraphText();
  }

  lemma ParagraphText()
    ensures "<" + "p" + " " + "class" + "=\"" + "foo" + "\">" == "<p class=\"foo\">"
    ensures "<p class=\"foo\">" + "<br>" + "</" + "p" + ">" == "<p class=\"foo\"><br></p>"
  {
  }

  lemma RenderImage()
    ensures OpeningTag("img", [("alt", "\"'<>")]) == "<img alt=\"&quot;'&lt;&gt;\">"
  {
    EscAttrSample();
    OpeningSingle("img", "alt", "\"'<>", "&quot;'&lt;&gt;");
    ImageText();
  }

  lemma ImageText()
    ensures "<" + "img" + " " + "alt" + "=\"" + "&quot;'&lt;&gt;" + "\">" == "<img alt=\"&quot;'&lt;&gt;\">"
  {
  }

  /** The opening tag of an element with one attribute, whose value escapes to `e`. */
  lemma OpeningSingle(name: string, k: string, v: string, e: string)
    requires EscAttr(v) == e
    ensures OpeningTag(name, [(k, v)]) == "<" + name + " " + k + "=\"" + e + "\">"
  {
    assert [(k, v)][1..] == [];
    assert AttrsText([(k, v)]) == " " + k + "=\"" + e + "\"";
  }

  /** A paragraph: the name is lower-cased and an attribute set under a
      mixed-case name is stored lower-case. */
  method BuildParagraph() {
    LowerParagraph();
    LowerClass();
    var p := new Tag("P");
    assert p.GetName() == "p" && !p.isVoid;
    p.SetAttribute("Class", "foo");
    PutAppends([], "class", "foo");
    assert p.GetAttributes() == [("class", "foo")];
  }

  /** An appended void child renders as its opening tag alone, and the
      parent renders around it. */
  method AppendChild() {
    LowerParagraph();
    LowerClass();
    LowerBreak();
    RenderBr();
    RenderParagraph();
    var p := new Tag("P");
    p.SetAttribute("Class", "foo");
    PutAppends([], "class", "foo");
    var br := new Tag("br");
    var o := p.Append(br);
    assert o == Pass && p.content == "<br>";
    var r := p.Render();
    assert r == "<p class=\"foo\"><br></p>";
    o := p.Empty();
    assert p.IsEmpty();
  }

  /** Text content is escaped except for quotes; HTML content is kept as is. */
  method TextIsEscaped() {
    LowerParagraph();
    EscTextSample();
    var p := new Tag("P");
    var o := p.SetTextContent("'<\"&>");
    assert p.content == "'&lt;\"&amp;&gt;";
    o := p.SetHtmlContent("<br>");
    assert p.content == "<br>";
    o := p.AppendTextContent("");
    assert p.content == "<br>";
  }

  /** A void element refuses content and has no closing tag. */
  method VoidElementRefusesContent() {
    LowerImage();
    var img := new Tag("IMG");
    assert img.isVoid;
    var o := img.SetTextContent("x");
    assert o == Fail(CannotHaveContents) && img.IsEmpty();
    o := img.AppendHtmlContent("x");
    assert o == Fail(CannotHaveContents) && img.IsEmpty();
    var c := img.RenderClosingTag();
    assert c == Failure(NoClosingTag);
  }

  /** Attribute values escape the double quote but not the single one. */
  method AttributeValueIsEscaped() {
    LowerImage();
    LowerAlt();
    var img := new Tag("IMG");
    img.SetAttribute("Alt", "\"'<>");
    PutAppends([], "alt", "\"'<>");
    RenderImage();
    var r := img.Render();
    assert r == "<img alt=\"&quot;'&lt;&gt;\">";
  }

  /** Attribute names are matched whatever their case. */
  method AttributesAreCaseInsensitive() {
    LowerParagraph();
    LowerClass();
    var p := new Tag("P");
    p.SetAttribute("Class", "a");
    PutAppends([], "class", "a");
    assert p.HasAttribute("CLASS");
    assert p.GetAttribute("CLASS") == Some("a");
    p.RemoveAttribute("CLASS");
    RemoveAt([("class", "a")], "class", 0);
    assert !p.HasAttribute("Class");
  }
}
