/** An HTML5 tag: a mutable builder for one element. Its name and its void
    flag are fixed at construction; its attributes and its already-rendered
    content change in place. Content operations on a void element fail
    before changing anything. */
module Html {
  import opened Ascii
  import opened Escape
  import opened Results
  import opened Attributes
  import opened Markup

  /** The two reasons the `LogicException` of the source carries. */
  datatype TagError =
    | CannotHaveContents  // a content operation on a void element
    | NoClosingTag        // the closing tag of a void element

  class Tag {
    const name: string
    const isVoid: bool
    var attributes: seq<Attr>
    var content: string

    /** The name is lower-case and decides the void flag, attribute names are
        lower-case and distinct, and a void element holds no content. */
    ghost predicate Valid()
      reads this
    {
      && IsLower(name)
      && isVoid == IsVoidName(name)
      && WellFormed(attributes)
      && (isVoid ==> content == "")
    }

    constructor (n: string)
      ensures Valid()
      ensures name == Lower(n) && isVoid == IsVoidName(Lower(n))
      ensures attributes == [] && content == ""
    {
      name := Lower(n);
      isVoid := Lower(n) in VoidElements;
      attributes := [];
      content := "";
    }

    function GetName(): (r: string)
      reads this
      requires Valid()
      ensures IsLower(r) && IsVoidName(r) == isVoid
    {
      name
    }

    function GetAttributes(): (r: seq<Attr>)
      reads this
      requires Valid()
      ensures WellFormed(r)
    {
      attributes
    }

    /** `isset`, on the lower-cased name. */
    function HasAttribute(n: string): (r: bool)
      reads this
      ensures r <==> Lower(n) in Keys(attributes)
    {
      Get(attributes, Lower(n)).Some?
    }

    /** The value stored under the lower-cased name, or none. */
    function GetAttribute(n: string): (r: Option<string>)
      reads this
      requires Valid()
      ensures r.None? <==> !HasAttribute(n)
      ensures forall i :: 0 <= i < |attributes| && attributes[i].0 == Lower(n) ==> r == Some(attributes[i].1)
    {
      GetDistinct(attributes, Lower(n));
      Get(attributes, Lower(n))
    }

    method SetAttribute(n: string, v: string)
      requires Valid()
      modifies this`attributes
      ensures Valid()
      ensures attributes == Put(old(attributes), Lower(n), v)
    {
      PutWellFormed(attributes, Lower(n), v);
      attributes := Put(attributes, Lower(n), v);
    }

    /** Sets each pair in turn, as the `foreach` of the source does. */
    method SetAttributes(pairs: seq<Attr>)
      requires Valid()
      modifies this`attributes
      ensures Valid()
      ensures attributes == PutAll(old(attributes), pairs)
    {
      var i := 0;
      while i < |pairs|
        invariant 0 <= i <= |pairs|
        invariant WellFormed(attributes)
        invariant PutAll(attributes, pairs[i..]) == PutAll(old(attributes), pairs)
      {
        assert pairs[i..][1..] == pairs[i + 1..];
        PutWellFormed(attributes, Lower(pairs[i].0), pairs[i].1);
        attributes := Put(attributes, Lower(pairs[i].0), pairs[i].1);
        i := i + 1;
      }
    }

    method RemoveAttribute(n: string)
      requires Valid()
      modifies this`attributes
      ensures Valid()
      ensures attributes == Remove(old(attributes), Lower(n))
    {
      RemoveWellFormed(attributes, Lower(n));
      attributes := Remove(attributes, Lower(n));
    }

    method Empty() returns (o: Outcome<TagError>)
      requires Valid()
      modifies this`content
      ensures Valid()
      ensures o == if isVoid then Fail(CannotHaveContents) else Pass
      ensures content == if isVoid then old(content) else ""
    {
      if isVoid {
        return Fail(CannotHaveContents);
      }
      content := "";
      return Pass;
    }

    method SetTextContent(s: string) returns (o: Outcome<TagError>)
      requires Valid()
      modifies this`content
      ensures Valid()
      ensures o == if isVoid then Fail(CannotHaveContents) else Pass
      ensures content == if isVoid then old(content) else EscText(s)
    {
      if isVoid {
        return Fail(CannotHaveContents);
      }
      content := EscText(s);
      return Pass;
    }

    method SetHtmlContent(s: string) returns (o: Outcome<TagError>)
      requires Valid()
      modifies this`content
      ensures Valid()
      ensures o == if isVoid then Fail(CannotHaveContents) else Pass
      ensures content == if isVoid then old(content) else s
    {
      if isVoid {
        return Fail(CannotHaveContents);
      }
      content := s;
      return Pass;
    }

    method AppendTextContent(s: string) returns (o: Outcome<TagError>)
      requires Valid()
      modifies this`content
      ensures Valid()
      ensures o == if isVoid then Fail(CannotHaveContents) else Pass
      ensures content == if isVoid then old(content) else old(content) + EscText(s)
    {
      if isVoid {
        return Fail(CannotHaveContents);
      }
      content := content + EscText(s);
      return Pass;
    }

    method AppendHtmlContent(s: string) returns (o: Outcome<TagError>)
      requires Valid()
      modifies this`content
      ensures Valid()
      ensures o == if isVoid then Fail(CannotHaveContents) else Pass
      ensures content == if isVoid then old(content) else old(content) + s
    {
      if isVoid {
        return Fail(CannotHaveContents);
      }
      content := content + s;
      return Pass;
    }

    /** Appends the child as it renders now: later changes to the child do
        not reach this content. The child may be this tag itself. */
    method Append(child: Tag) returns (o: Outcome<TagError>)
      requires Valid()
      modifies this`content
      ensures Valid()
      ensures o == if isVoid then Fail(CannotHaveContents) else Pass
      ensures content == if isVoid then old(content)
        else old(content) + Rendered(child.name, child.isVoid, old(child.attributes), old(child.content))
    {
      if isVoid {
        return Fail(CannotHaveContents);
      }
      var r := child.Render();
      content := content + r;
      return Pass;
    }

    function IsEmpty(): (r: bool)
      reads this
      requires Valid()
      ensures r <==> |content| == 0
      ensures isVoid ==> r
    {
      content == ""
    }

    /** Builds the opening tag attribute by attribute. */
    method RenderOpeningTag() returns (r: string)
      ensures r == OpeningTag(name, attributes)
    {
      r := "<" + name;
      ghost var head := r;
      var i := 0;
      while i < |attributes|
        invariant 0 <= i <= |attributes|
        invariant r == head + AttrsText(attributes[..i])
      {
        var (k, v) := attributes[i];
        AttrsTextSnoc(attributes[..i], attributes[i]);
        assert attributes[..i + 1] == attributes[..i] + [attributes[i]];
        r := r + (" " + k + "=\"" + EscAttr(v) + "\"");
        i := i + 1;
      }
      assert attributes[..i] == attributes;
      r := r + ">";
    }

    function RenderClosingTag(): (r: Result<string, TagError>)
      ensures r.Failure? <==> isVoid
      ensures r.Failure? ==> r.error == NoClosingTag
      ensures r.Success? ==> r.value == ClosingTag(name)
    {
      if isVoid then Failure(NoClosingTag) else Success("</" + name + ">")
    }

    method Render() returns (r: string)
      ensures r == Rendered(name, isVoid, attributes, content)
    {
      r := RenderOpeningTag();
      if !isVoid {
        var close := RenderClosingTag();
        r := r + content + close.value;
      }
    }

    /** `__toString`. */
    method ToString() returns (r: string)
      ensures r == Rendered(name, isVoid, attributes, content)
    {
      r := Render();
    }
  }
}
