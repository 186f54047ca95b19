# brick/html `Tag`, modelled in Dafny

`Tag` (src/Tag.php) builds one HTML5 element. Its name is lower-cased when
the element is built. The name then decides once and for all whether the
element is void, by matching it against the 16 void elements of W3C HTML 5.1,
section 8.1.2. A tag also holds an ordered attribute map, whose names are
lower-cased on every access, and a buffer of already-rendered content. The
content operations and the closing tag refuse to work on a void element.
Rendering writes the opening tag, the content and the closing tag, using two
escaping modes of `htmlspecialchars`.

Modules:

- `Ascii` (ascii.dfy): `strtolower` as ASCII lower-casing.
- `Escape` (escape.dfy): the two escaping modes. A decoder for the entities
  they produce serves as their inverse.
- `Results` (results.dfy): `Option`, `Result` and `Outcome`.
- `Attributes` (attributes.dfy): the PHP associative array as a sequence of
  pairs in insertion order. It supports lookup, store and unset, and is
  proved to behave as an ordered map.
- `Markup` (markup.dfy): what a tag renders to, as functions of its state.
  It also holds a reader of attribute lists. The reader shows that the
  rendered attribute list loses nothing for attribute names without `=`. A lemma locates
  the end of the opening tag when no name holds `>`.
- `Html` (tag.dfy): the class `Tag`.
  - `name` and `isVoid` are constants set by the constructor.
  - `attributes` and `content` are updated in place by the methods.
  - `Valid()` is the class invariant: a lower-case name that decides the void
    flag, lower-case distinct attribute names, and empty content on a void
    element.
  - `setAttributes` keeps the source's loop, as does `renderOpeningTag`.
    Each loop is proved equal to a recursive specification function.
  - Each content operation returns `Pass` or `Fail(CannotHaveContents)` in
    place of throwing. `renderClosingTag` returns a `Result`.
- `Scenarios` (scenarios.dfy): clients that pin concrete outputs in the
  manner of tests/TagTest.php.

Attribute values are escaped with `ENT_COMPAT` (src/Tag.php:307). So the
double quote becomes `&quot;` but the single quote is left as it is, as
tests/TagTest.php:46 expects. The model follows the code here, not a reading
under which all five special characters are escaped. Text content is escaped
with `ENT_NOQUOTES` (src/Tag.php:202, 242), which leaves both quotes alone.

Tag and attribute names are never checked and are written out unescaped
(src/Tag.php:130-132, 304-307). So a name may hold `=`, `"` or `>`, and then
the markup no longer determines the attributes. For example, one attribute
named `a="x" b` with value `y` renders the same text as the two attributes
`a="x"` and `b="y"` (`Markup.AttrsTextCollision`). Likewise a tag named
`p a="x"` with no attributes renders the same opening tag as a tag `p` with
attribute `a="x"` (`Markup.OpeningTagCollision`). The round-trip lemma below
is therefore about the attribute list alone, for names without `=`. The
split lemma is for names without `>`.

## Model

| member | source | states |
|---|---|---|
| Ascii.LowerChar | src/Tag.php:72 | an upper-case ASCII letter moves up by 32 code points, to its lower-case letter; every other character is unchanged; the result is never upper-case |
| Ascii.Lower | src/Tag.php:72 | same length, each character lower-cased in place, and the result is lower-case |
| Ascii.LowerFixesLower | src/Tag.php:72 | lower-casing leaves a string unchanged exactly when it is already lower-case |
| Ascii.LowerCaseInsensitive | src/Tag.php:107 | two names fold to the same key exactly when they have the same length and agree character by character up to case, so a lookup finds a stored name whatever case either is written in |
| Ascii.LowerIdempotent | src/Tag.php:132 | lower-casing twice is lower-casing once, so a stored key, already lower-case, is its own lookup key |
| Escape.TextChar | src/Tag.php:202 | a character is replaced exactly when it is `&`, `<` or `>`, and then by an entity starting with `&`; the replacement holds no bare `<` or `>` |
| Escape.AttrChar | src/Tag.php:307 | a character is replaced exactly when it is `&`, `<`, `>` or `"`, so the single quote is kept, and then by an entity starting with `&`; the replacement holds no bare `<`, `>` or `"` |
| Escape.EscText | src/Tag.php:202 | text escaping never yields a bare `<` or `>` |
| Escape.EscAttr | src/Tag.php:307 | attribute escaping never yields a bare `<`, `>` or `"`, so a value cannot close its quotes |
| Escape.UnescapeEscText | src/Tag.php:202 | decoding escaped text gives the text back, quotes included: the escape loses nothing |
| Escape.UnescapeEscAttr | src/Tag.php:307 | decoding an escaped attribute value gives the value back |
| Escape.EscTextPlain | src/Tag.php:202 | a string without `&`, `<` and `>` is its own text escape: both quotes are left alone |
| Escape.EscAttrPlain | src/Tag.php:307 | a string without `&`, `<`, `>` and `"` is its own attribute escape: the single quote is left alone |
| Escape.EscTextAppend | src/Tag.php:242 | escaping a concatenation is concatenating the escapes, so appending text piece by piece equals escaping it whole |
| Attributes.Keys | src/Tag.php:56 | the attribute names in insertion order, one per entry |
| Attributes.Get | src/Tag.php:119 | the lookup is absent exactly when the key is not in the map, and otherwise returns a value stored under the key |
| Attributes.GetDistinct | src/Tag.php:119 | with distinct keys, the lookup returns the value of the one entry under the key |
| Attributes.Put | src/Tag.php:132 | storing grows the list by at most one entry; where the pair goes is stated by PutAppends and PutInPlace |
| Attributes.PutAppends | src/Tag.php:132 | storing under a new key appends the pair at the end and keeps the rest |
| Attributes.PutInPlace | src/Tag.php:132 | storing under a present key replaces that entry's value in its place, and every other entry is unchanged |
| Attributes.PutDistinct | src/Tag.php:132 | storing keeps keys distinct; the key list is unchanged, or gains the new key at the end |
| Attributes.GetPut | src/Tag.php:132 | after storing, a lookup of that key gives the new value, and a lookup of any other key is unchanged |
| Attributes.PutWellFormed | src/Tag.php:132 | storing under a lower-case key keeps names lower-case and distinct |
| Attributes.Remove | src/Tag.php:164 | unsetting keeps only entries that were there, each at most as often as before, and drops at most one; which one is stated by RemoveAt and RemoveAbsent |
| Attributes.RemoveAbsent | src/Tag.php:164 | unsetting an absent key changes nothing |
| Attributes.RemoveAt | src/Tag.php:164 | unsetting a present key drops exactly that entry and keeps the order of the others |
| Attributes.RemoveDistinct | src/Tag.php:164 | unsetting keeps keys distinct |
| Attributes.RemoveWellFormed | src/Tag.php:164 | unsetting keeps names lower-case and distinct |
| Attributes.GetRemove | src/Tag.php:164 | after unsetting, the key is absent and every other lookup is unchanged |
| Attributes.PutAll | src/Tag.php:146-148 | storing a list of pairs in turn never shrinks the map and adds at most one entry per pair |
| Attributes.PutAllWellFormed | src/Tag.php:146-148 | storing a list of pairs under their lower-cased names keeps names lower-case and distinct |
| Attributes.GetPutAll | src/Tag.php:146-148 | after storing a list of pairs, a name maps to the value of the last pair with that lower-cased name, or keeps its old value if there is none |
| Attributes.PutAllKeepsOrder | src/Tag.php:146-148 | storing a list of pairs never moves existing names: the old names stay first, in their order |
| Markup.AttrsTextSnoc | src/Tag.php:306-308 | adding an attribute at the end adds its ` name="value"` segment at the end of the text |
| Markup.IsVoidName | src/Tag.php:18-35 | membership in the 16 void element names, matched exactly as `in_array` with strict comparison does; every void name is lower-case, so a case variant such as `IMG` is void only once lower-cased, as the constructor does first |
| Markup.OpeningTag | src/Tag.php:302-313 | the opening tag starts with `<`, ends with `>` and is at least two characters longer than the name; its exact text is stated through AttrsTextSnoc, ParseAttrsText and RenderedSplits |
| Markup.Rendered | src/Tag.php:336-343 | a void element renders a string as long as its opening tag (see RenderedShape for the text); any other element is longer by its content and a closing tag of the name's length plus 3 |
| Markup.RenderedShape | src/Tag.php:336-343 | a rendered element is `<`, the name and the attribute text, then `>`, then nothing for a void element, or the content and `</name>` otherwise |
| Markup.ParseAttrsText | src/Tag.php:304-310 | for attribute names without `=`, the rendered attribute list reads back as the list itself, names and values included, whatever characters the values hold |
| Markup.AttrsTextCollision | src/Tag.php:307 | names are printed unescaped, so a name holding `="` can pose as a further attribute: two different lists render the same text |
| Markup.OpeningTagCollision | src/Tag.php:304 | the tag name is printed unescaped, so a name holding a space and `a="x"` renders the same opening tag as the bare name with attribute `a` set to `x` |
| Markup.RenderedSplits | src/Tag.php:336-343 | when neither the tag name nor any attribute name holds `>`, the first `>` of a rendered element ends its opening tag; what follows is the content and closing tag, or nothing for a void element |
| Html.Tag.constructor | src/Tag.php:70-76 | the name is the lower-cased input, void exactly when it is one of the 16 void names; no attributes, empty content, invariant established |
| Html.Tag.GetName | src/Tag.php:83-86 | the name is lower-case and decides the void flag |
| Html.Tag.GetAttributes | src/Tag.php:93-96 | the returned map has distinct lower-case names |
| Html.Tag.HasAttribute | src/Tag.php:105-108 | true exactly when the lower-cased name is one of the keys |
| Html.Tag.GetAttribute | src/Tag.php:117-120 | absent exactly when there is no such attribute; otherwise the value stored under the lower-cased name |
| Html.Tag.SetAttribute | src/Tag.php:130-135 | the map after storing under the lower-cased name (see PutAppends, PutInPlace, GetPut); the invariant is kept and content is untouched |
| Html.Tag.SetAttributes | src/Tag.php:144-151 | the loop leaves the map storing each pair in order (see GetPutAll, PutAllKeepsOrder); the invariant is kept |
| Html.Tag.RemoveAttribute | src/Tag.php:162-167 | the map after unsetting the lower-cased name (see RemoveAt, RemoveAbsent, GetRemove); the invariant is kept |
| Html.Tag.Empty | src/Tag.php:176-185 | fails on a void element without any change; otherwise the content becomes empty |
| Html.Tag.SetTextContent | src/Tag.php:196-205 | fails on a void element without any change; otherwise the content becomes the escaped text |
| Html.Tag.SetHtmlContent | src/Tag.php:216-225 | fails on a void element without any change; otherwise the content becomes the argument verbatim |
| Html.Tag.AppendTextContent | src/Tag.php:236-245 | fails on a void element without any change; otherwise the escaped text is added after the content |
| Html.Tag.AppendHtmlContent | src/Tag.php:256-265 | fails on a void element without any change; otherwise the argument is added after the content verbatim |
| Html.Tag.Append | src/Tag.php:276-285 | fails on a void element without any change; otherwise the child as it renders at the time of the call is added after the content, even when the child is this tag |
| Html.Tag.IsEmpty | src/Tag.php:292-295 | true exactly when the content is empty, and always true on a void element |
| Html.Tag.RenderOpeningTag | src/Tag.php:302-313 | the loop yields `<`, the name, one ` name="escaped value"` per attribute in map order, then `>` (see ParseAttrsText, RenderedSplits); no state changes |
| Html.Tag.RenderClosingTag | src/Tag.php:322-329 | fails with no-closing-tag exactly on a void element; otherwise `</name>` |
| Html.Tag.Render | src/Tag.php:336-343 | the opening tag alone on a void element; otherwise opening tag, content, closing tag; no state changes |
| Html.Tag.ToString | src/Tag.php:348-351 | the same string as rendering |
| Scenarios.EscTextSample | tests/TagTest.php:23-24 | text escaping escapes `<`, `&` and `>` but keeps both quotes |
| Scenarios.EscAttrSample | tests/TagTest.php:46 | attribute escaping turns `"'<>` into `&quot;'&lt;&gt;` |
| Scenarios.RenderParagraph | tests/TagTest.php:32-33 | a `p` with class `foo` holding a `br` renders as `<p class="foo"><br></p>` |

## Left out

- Invalid UTF-8 and other encodings: strings are sequences of characters.
  `htmlspecialchars` returns the empty string on invalid input, and that is
  not modelled.
- The `(string)` coercion of non-string values in `setAttributes`
  (src/Tag.php:147) is left out: pairs carry strings.
- PHP's integer array keys: storing under a decimal-integer string such as
  `"123"` (src/Tag.php:132, 147) makes PHP keep the integer key 123, so
  `getAttributes()` (src/Tag.php:95) returns an integer key where the model
  keeps the string `"123"`. Lookups and rendering are the same either way.
- Locale-dependent `strtolower`: lower-casing is ASCII `A`–`Z` only.
- The exception class and message texts: errors are the two reasons
  `CannotHaveContents` and `NoClosingTag`.
- Fluent chaining (`return $this`): mutators are methods on the same object
  and return only their outcome.
- An initial-attributes constructor argument: the constructor at
  src/Tag.php:70 takes a name only. The second argument that
  tests/TagTest.php:38 passes is not modelled.
- The PHPUnit harness: the `Scenarios` module states a few of its
  expectations as lemmas and client methods, on shorter inputs where the test
  strings would be costly to evaluate.
