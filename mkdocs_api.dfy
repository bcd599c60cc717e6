/**
 * The Doxygen-to-MkDocs API page generator of tools/GenerateMkDocsApi.py.
 *
 * The parsed XML is a tree of `Element` values shaped like ElementTree's:
 * a tag, the text before the first child, the tail text after the element,
 * the attributes and the children. ElementTree's `None` text or tail is the
 * empty string here, which every test in the generator treats alike. The
 * parsed `index.xml` and the parsed per-compound XML files are inputs; the
 * files the generator writes are returned as (path, content) pairs.
 */
module MkDocsApi {
  import opened Common
  import opened Text

  datatype Element = Element(tag: string, text: string, tail: string, attrs: map<string, string>, children: seq<Element>)

  /** One entry of the Doxygen index. */
  datatype Compound = Compound(refid: string, kind: string, name: string)

  /** `e.get(name, "")`. */
  function Attr(e: Element, name: string): string {
    if name in e.attrs then e.attrs[name] else ""
  }

  // ---------------------------------------------------------------------
  // ElementTree lookups
  // ---------------------------------------------------------------------

  /** `findall(tag)`: the direct children with that tag, in document order. */
  function FindAll(children: seq<Element>, tag: string): (r: seq<Element>)
    ensures |r| <= |children|
  {
    if children == [] then []
    else (if children[0].tag == tag then [children[0]] else []) + FindAll(children[1..], tag)
  }

  /** What `findall` keeps: children with the tag, and none at all exactly when no child has it. */
  lemma {:induction false} FindAllExact(children: seq<Element>, tag: string)
    ensures forall k :: 0 <= k < |FindAll(children, tag)| ==> FindAll(children, tag)[k].tag == tag && FindAll(children, tag)[k] in children
    ensures FindAll(children, tag) == [] <==> forall k :: 0 <= k < |children| ==> children[k].tag != tag
  {
    if children != [] {
      FindAllExact(children[1..], tag);
      assert forall k :: 1 <= k < |children| ==> children[k] == children[1..][k - 1];
    }
  }

  /** `find(tag)`: the first direct child with that tag. */
  function Find(children: seq<Element>, tag: string): (r: Option<Element>)
  {
    var all := FindAll(children, tag);
    if all == [] then None else Some(all[0])
  }

  /** `find` gives a child with the tag, and nothing exactly when no child has it. */
  lemma FindExact(children: seq<Element>, tag: string)
    ensures Find(children, tag).Some? ==> Find(children, tag).value.tag == tag && Find(children, tag).value in children
    ensures Find(children, tag).None? <==> forall k :: 0 <= k < |children| ==> children[k].tag != tag
  {
    FindAllExact(children, tag);
  }

  /** `findtext(tag, "")`: the text of the first child with that tag, or "". */
  function FindText(e: Element, tag: string): string {
    match Find(e.children, tag)
    case None => ""
    case Some(c) => c.text
  }

  /** The subelements below `e` (not `e` itself) in document order, as `.//` visits them. */
  function Descendants(e: Element): seq<Element>
    decreases e, 1, 0
  {
    DescendantsFrom(e, 0)
  }

  function DescendantsFrom(e: Element, i: nat): seq<Element>
    decreases e, 0, |e.children| - i
  {
    if i >= |e.children| then []
    else [e.children[i]] + Descendants(e.children[i]) + DescendantsFrom(e, i + 1)
  }

  /** `itertext()`: the text, then each child's text and its tail, in document order. */
  function Itertext(e: Element): string
    decreases e, 1, 0
  {
    e.text + ItertextFrom(e, 0)
  }

  function ItertextFrom(e: Element, i: nat): string
    decreases e, 0, |e.children| - i
  {
    if i >= |e.children| then ""
    else Itertext(e.children[i]) + e.children[i].tail + ItertextFrom(e, i + 1)
  }

  // ---------------------------------------------------------------------
  // Python string helpers
  // ---------------------------------------------------------------------

  /** `str.isspace()` for one character: the characters Python's `strip()` removes. */
  predicate PyIsSpace(c: char) {
    ('\t' <= c <= '\r') || ('\U{1c}' <= c <= ' ') || c == '\U{85}' || c == '\U{a0}' || c == '\U{1680}'
    || ('\U{2000}' <= c <= '\U{200a}') || c == '\U{2028}' || c == '\U{2029}' || c == '\U{202f}' || c == '\U{205f}'
    || c == '\U{3000}'
  }

  /** The first index that is not whitespace (|s| when there is none). */
  function LeftEnd(s: string): (b: nat)
    ensures b <= |s|
    ensures forall k :: 0 <= k < b ==> PyIsSpace(s[k])
    ensures b < |s| ==> !PyIsSpace(s[b])
  {
    if s == [] || !PyIsSpace(s[0]) then 0 else 1 + LeftEnd(s[1..])
  }

  /** One past the last index that is not whitespace (0 when there is none). */
  function RightEnd(s: string): (e: nat)
    ensures e <= |s|
    ensures forall k :: e <= k < |s| ==> PyIsSpace(s[k])
    ensures e > 0 ==> !PyIsSpace(s[e - 1])
  {
    if s == [] || !PyIsSpace(s[|s| - 1]) then |s| else RightEnd(s[..|s| - 1])
  }

  /** `str.rstrip()`. */
  function RStrip(s: string): (r: string)
    ensures r == s[..RightEnd(s)]
  {
    s[..RightEnd(s)]
  }

  /** `str.strip()`. */
  function Strip(s: string): (r: string)
  {
    RStrip(s[LeftEnd(s)..])
  }

  /** Text that starts with a character that is not whitespace keeps it first through strip. */
  lemma StripKeepsFirst(x: string)
    requires x != [] && !PyIsSpace(x[0])
    ensures Strip(x) != [] && Strip(x)[0] == x[0]
  {
    assert LeftEnd(x) == 0;
    assert x[0..] == x;
    RightEndAtLeast(x, 1);
  }

  /** Strip leaves no whitespace at either end. */
  lemma StripEnds(s: string)
    ensures Strip(s) != [] ==> !PyIsSpace(Strip(s)[0]) && !PyIsSpace(Strip(s)[|Strip(s)| - 1])
  {
    var b := LeftEnd(s);
    var t := s[b..];
    if RightEnd(t) > 0 {
      assert Strip(s)[0] == t[0];
    }
  }

  /** What strip keeps: a slice of the input with whitespace at neither end. */
  lemma StripShape(s: string)
    ensures exists b, e :: (0 <= b <= e <= |s| && Strip(s) == s[b..e]
      && (forall k :: 0 <= k < b ==> PyIsSpace(s[k])) && (forall k :: e <= k < |s| ==> PyIsSpace(s[k])))
    ensures Strip(s) != [] ==> !PyIsSpace(Strip(s)[0]) && !PyIsSpace(Strip(s)[|Strip(s)| - 1])
  {
    var b := LeftEnd(s);
    var t := s[b..];
    var e := RightEnd(t);
    assert Strip(s) == s[b..b + e];
    forall k | b + e <= k < |s| ensures PyIsSpace(s[k]) {
      assert s[k] == t[k - b];
    }
    if e > 0 {
      assert Strip(s)[0] == t[0];
    }
  }

  /** Text that starts with a character that is not whitespace keeps its first character through strip. */
  lemma StripKeepsFront(p: string, s: string)
    requires p != [] && !PyIsSpace(p[0]) && !PyIsSpace(p[|p| - 1])
    ensures PrefixOf(p, Strip(p + s))
  {
    var x := p + s;
    assert LeftEnd(x) == 0;
    assert x[0..] == x;
    RightEndAtLeast(x, |p|);
    assert Strip(x) == x[..RightEnd(x)];
  }

  lemma {:induction false} RightEndAtLeast(s: string, m: nat)
    requires 0 < m <= |s| && !PyIsSpace(s[m - 1])
    ensures m <= RightEnd(s)
    decreases |s|
  {
    if PyIsSpace(s[|s| - 1]) {
      var t := s[..|s| - 1];
      assert t[m - 1] == s[m - 1];
      RightEndAtLeast(t, m);
    }
  }

  predicate PrefixOf(p: string, s: string) {
    |p| <= |s| && s[..|p|] == p
  }

  /** `sep.join(parts)`. */
  function Join(parts: seq<string>, sep: string): (r: string)
  {
    if parts == [] then ""
    else if |parts| == 1 then parts[0]
    else parts[0] + sep + Join(parts[1..], sep)
  }

  /** How often `c` occurs in `s`. */
  function Count(s: string, c: char): (n: nat)
    ensures n <= |s|
  {
    if s == [] then 0 else (if s[0] == c then 1 else 0) + Count(s[1..], c)
  }

  lemma {:induction false} CountAppend(a: string, b: string, c: char)
    ensures Count(a + b, c) == Count(a, c) + Count(b, c)
  {
    if a != [] {
      assert (a + b)[1..] == a[1..] + b;
      CountAppend(a[1..], b, c);
    } else {
      assert a + b == b;
    }
  }

  /** Joining parts free of the single-character separator gives one separator fewer than parts. */
  lemma {:induction false} JoinCount(parts: seq<string>, c: char)
    requires parts != []
    requires forall k :: 0 <= k < |parts| ==> Count(parts[k], c) == 0
    ensures Count(Join(parts, [c]), c) == |parts| - 1
  {
    if |parts| > 1 {
      JoinCount(parts[1..], c);
      CountAppend(parts[0] + [c], Join(parts[1..], [c]), c);
      CountAppend(parts[0], [c], c);
      assert Count([c], c) == 1 by {
        assert [c][1..] == [];
      }
    }
  }

  /**
   * `str.title()` over ASCII letters: a letter that follows a letter becomes
   * lower case, any other letter upper case; other characters are kept.
   */
  function TitleCase(s: string): (r: string)
    ensures |r| == |s|
  {
    TitleFrom(s, false)
  }

  predicate IsAsciiLetter(c: char) {
    IsUpper(c) || IsLower(c)
  }

  function ToUpper(c: char): (r: char)
    ensures IsLower(c) ==> IsUpper(r) && ToLower(r) == c
    ensures !IsLower(c) ==> r == c
  {
    if IsLower(c) then (c as int - 32) as char else c
  }

  function TitleFrom(s: string, afterLetter: bool): (r: string)
    ensures |r| == |s|
    ensures forall k :: 0 <= k < |s| ==> (IsAsciiLetter(s[k]) <==> IsAsciiLetter(r[k]))
    ensures forall k :: 0 <= k < |s| && !IsAsciiLetter(s[k]) ==> r[k] == s[k]
  {
    if s == [] then []
    else
      var c := if afterLetter then ToLower(s[0]) else ToUpper(s[0]);
      var rest := TitleFrom(s[1..], IsAsciiLetter(s[0]));
      assert forall k :: 1 <= k < |s| ==> s[k] == s[1..][k - 1];
      [c] + rest
  }

  /** In a title-cased text a letter after a letter is lower case, any other letter upper case. */
  lemma {:induction false} TitleFromAt(s: string, afterLetter: bool, k: nat)
    requires k < |s| && IsAsciiLetter(s[k])
    ensures var r := TitleFrom(s, afterLetter);
      if (if k == 0 then afterLetter else IsAsciiLetter(s[k - 1])) then IsLower(r[k]) else IsUpper(r[k])
  {
    if k > 0 {
      var t := s[1..];
      TitleFromAt(t, IsAsciiLetter(s[0]), k - 1);
      assert t[k - 1] == s[k];
      assert TitleFrom(s, afterLetter)[k] == TitleFrom(t, IsAsciiLetter(s[0]))[k - 1];
      if k > 1 {
        assert t[k - 2] == s[k - 1];
      }
    }
  }

  /** `s.replace('-', ' ')`. */
  function DashesToSpaces(s: string): (r: string)
    ensures |r| == |s|
    ensures forall k :: 0 <= k < |s| ==> r[k] == (if s[k] == '-' then ' ' else s[k])
  {
    if s == [] then [] else [if s[0] == '-' then ' ' else s[0]] + DashesToSpaces(s[1..])
  }

  // ---------------------------------------------------------------------
  // Inline and block rendering
  // ---------------------------------------------------------------------

  /** `_RenderInline`: the element text, then each child rendered and followed by its tail. */
  function RenderInline(e: Element): string
    decreases e, 1, 0
  {
    e.text + InlineChildren(e, 0)
  }

  function InlineChildren(e: Element, i: nat): string
    decreases e, 0, |e.children| - i
  {
    if i >= |e.children| then ""
    else RenderChild(e.children[i]) + e.children[i].tail + InlineChildren(e, i + 1)
  }

  /** How one child of an inline element renders, by its tag. */
  function RenderChild(c: Element): string
    decreases c, 2, 0
  {
    if c.tag == "parameterlist" || c.tag == "simplesect" then ""
    else if c.tag == "computeroutput" || c.tag == "tt" then "`" + RenderInline(c) + "`"
    else if c.tag == "bold" then "**" + RenderInline(c) + "**"
    else if c.tag == "emphasis" then "*" + RenderInline(c) + "*"
    else if c.tag == "ref" then RenderInline(c)
    else if c.tag == "ulink" then
      (var caption := RenderInline(c);
       var url := Attr(c, "url");
       if url != "" then "[" + caption + "](" + url + ")" else caption)
    else if c.tag == "linebreak" then "  \n"
    else if c.tag == "itemizedlist" then "\n" + RenderList(c, false) + "\n"
    else if c.tag == "orderedlist" then "\n" + RenderList(c, true) + "\n"
    else RenderInline(c)
  }

  /** `_RenderList`: one line per `listitem`, numbered from 1 when ordered. */
  function RenderList(e: Element, ordered: bool): string
    decreases e, 1, 0
  {
    Join(ListLines(e, ordered, 0, 1), "\n")
  }

  function ListPrefix(idx: nat, ordered: bool): string {
    if ordered then DecimalText(idx) + "." else "-"
  }

  /** The line of the item numbered `idx`: its prefix, a space and its stripped text. */
  function ItemLineOf(item: Element, idx: nat, ordered: bool): string
    decreases item, 1, 1
  {
    ListPrefix(idx, ordered) + " " + Strip(RenderInline(item))
  }

  function ListLines(e: Element, ordered: bool, i: nat, idx: nat): seq<string>
    decreases e, 0, |e.children| - i
  {
    if i >= |e.children| then []
    else if e.children[i].tag == "listitem" then
      [ItemLineOf(e.children[i], idx, ordered)] + ListLines(e, ordered, i + 1, idx + 1)
    else ListLines(e, ordered, i + 1, idx)
  }

  /** The tags whose elements render as their plain text. */
  predicate PlainTag(tag: string) {
    tag !in {"parameterlist", "simplesect", "computeroutput", "tt", "bold", "emphasis", "ulink", "linebreak", "itemizedlist", "orderedlist"}
  }

  /** A tree in which every element below the top has a plain tag. */
  predicate PlainTree(e: Element)
    decreases e, 1, 0
  {
    PlainFrom(e, 0)
  }

  predicate PlainFrom(e: Element, i: nat)
    decreases e, 0, |e.children| - i
  {
    i >= |e.children| || (PlainTag(e.children[i].tag) && PlainTree(e.children[i]) && PlainFrom(e, i + 1))
  }

  /** Without markup, `_RenderInline` reproduces the text in document order, as `itertext()` does. */
  lemma {:induction false} PlainInlineIsText(e: Element)
    requires PlainTree(e)
    ensures RenderInline(e) == Itertext(e)
    decreases e, 1, 0
  {
    PlainChildrenAreText(e, 0);
  }

  lemma {:induction false} PlainChildrenAreText(e: Element, i: nat)
    requires PlainFrom(e, i)
    ensures InlineChildren(e, i) == ItertextFrom(e, i)
    decreases e, 0, |e.children| - i
  {
    if i < |e.children| {
      PlainInlineIsText(e.children[i]);
      PlainChildrenAreText(e, i + 1);
    }
  }

  /** The list items of `e` from slot `i` on. */
  function ItemsFrom(e: Element, i: nat): seq<Element>
    decreases |e.children| - i
  {
    if i >= |e.children| then [] else FindAll(e.children[i..], "listitem")
  }

  /** One line per list item, each starting with its number (or a dash) and a space. */
  /** The lines of `items`, numbered from `idx`. */
  function ListItemLines(items: seq<Element>, idx: nat, ordered: bool): (r: seq<string>)
    ensures |r| == |items|
  {
    if items == [] then [] else [ItemLineOf(items[0], idx, ordered)] + ListItemLines(items[1..], idx + 1, ordered)
  }

  /** The items from slot `i` on: slot `i` itself when it is a list item, then the rest. */
  lemma ItemsFromStep(e: Element, i: nat)
    requires i < |e.children|
    ensures ItemsFrom(e, i) == (if e.children[i].tag == "listitem" then [e.children[i]] else []) + ItemsFrom(e, i + 1)
  {
    assert e.children[i..][1..] == e.children[i + 1..];
  }

  lemma {:induction false} ListLinesShape(e: Element, ordered: bool, i: nat, idx: nat)
    ensures ListLines(e, ordered, i, idx) == ListItemLines(ItemsFrom(e, i), idx, ordered)
    decreases |e.children| - i
  {
    if i < |e.children| {
      ItemsFromStep(e, i);
      if e.children[i].tag == "listitem" {
        ListLinesShape(e, ordered, i + 1, idx + 1);
        var items := ItemsFrom(e, i);
        assert items[0] == e.children[i] && items[1..] == ItemsFrom(e, i + 1);
      } else {
        ListLinesShape(e, ordered, i + 1, idx);
        assert ItemsFrom(e, i) == ItemsFrom(e, i + 1);
      }
    }
  }

  /** `_RenderList` writes the lines of the `listitem` children, numbered from 1, joined by newlines. */
  lemma RenderListShape(e: Element, ordered: bool)
    ensures RenderList(e, ordered) == Join(ListItemLines(FindAll(e.children, "listitem"), 1, ordered), "\n")
  {
    ListLinesShape(e, ordered, 0, 1);
    if e.children != [] {
      assert e.children[0..] == e.children;
    }
  }

  /** `_RenderProgramlisting`: the code lines, right-stripped, in a cpp fence. */
  function RenderProgramlisting(e: Element): string {
    var lines := CodeLines(FindAll(e.children, "codeline"));
    "```cpp\n" + RStrip(Join(lines, "\n")) + "\n```"
  }

  function CodeLines(codelines: seq<Element>): (r: seq<string>)
    ensures |r| == |codelines|
  {
    if codelines == [] then [] else [RStrip(Itertext(codelines[0]))] + CodeLines(codelines[1..])
  }

  /** `_RenderDescription`: the block children rendered, empty blocks dropped, joined by blank lines. */
  function RenderDescription(elem: Option<Element>): (r: string)
  {
    match elem
    case None => ""
    case Some(e) => Join(NonEmpty(DescriptionBlocks(e.children)), "\n\n")
  }

  function DescriptionBlocks(children: seq<Element>): seq<string> {
    if children == [] then []
    else
      var c := children[0];
      var block :=
        if c.tag == "para" then [Strip(RenderInline(c))]
        else if c.tag == "programlisting" then [RenderProgramlisting(c)]
        else if c.tag == "itemizedlist" then [RenderList(c, false)]
        else if c.tag == "orderedlist" then [RenderList(c, true)]
        else [];
      block + DescriptionBlocks(children[1..])
  }

  /** The non-empty strings of a list, in order. */
  function NonEmpty(parts: seq<string>): (r: seq<string>)
    ensures |r| <= |parts|
  {
    if parts == [] then []
    else (if parts[0] != "" then [parts[0]] else []) + NonEmpty(parts[1..])
  }

  /** Filtering keeps exactly the non-empty strings. */
  lemma {:induction false} NonEmptyExact(parts: seq<string>)
    ensures forall k :: 0 <= k < |NonEmpty(parts)| ==> NonEmpty(parts)[k] != "" && NonEmpty(parts)[k] in parts
    ensures forall k :: 0 <= k < |parts| && parts[k] != "" ==> parts[k] in NonEmpty(parts)
  {
    if parts != [] {
      NonEmptyExact(parts[1..]);
      assert forall k :: 1 <= k < |parts| ==> parts[k] == parts[1..][k - 1];
    }
  }

  /** A missing description, or one with no block of a known kind, renders as nothing. */
  lemma {:induction false} NoBlocksNoDescription(children: seq<Element>)
    requires forall k :: 0 <= k < |children| ==> children[k].tag !in {"para", "programlisting", "itemizedlist", "orderedlist"}
    ensures DescriptionBlocks(children) == []
  {
    if children != [] {
      NoBlocksNoDescription(children[1..]);
    }
  }

  // ---------------------------------------------------------------------
  // Member cards
  // ---------------------------------------------------------------------

  const CardOpen := "<div class=\"snapi-api-card\" markdown=\"1\">"

  /** `_WrapCard`: nothing for empty content, else the content stripped inside the card markup. */
  function WrapCard(content: string): (r: string)
    ensures content == "" <==> r == ""
  {
    if content == "" then "" else CardOpen + "\n" + Strip(content) + "\n</div>"
  }

  /** `_RenderMember`'s heading: definition plus arguments, else the definition, else the name. */
  function Signature(member: Element): (r: string)
    ensures var definition := Strip(FindText(member, "definition"));
      var args := Strip(FindText(member, "argsstring"));
      (args != "" ==> r == definition + args)
      && (args == "" && definition != "" ==> r == definition)
      && (args == "" && definition == "" ==> r == Strip(FindText(member, "name")))
  {
    var definition := Strip(FindText(member, "definition"));
    var args := Strip(FindText(member, "argsstring"));
    if args != "" then definition + args
    else if definition != "" then definition
    else Strip(FindText(member, "name"))
  }

  /** A heading, then each non-empty part followed by a blank line. */
  function Described(parts: seq<string>): seq<string> {
    if parts == [] then []
    else (if parts[0] != "" then [parts[0], ""] else []) + Described(parts[1..])
  }

  /** The items of a `**Title**` block, or nothing when there are no items. */
  function Block(title: string, items: seq<string>): (r: seq<string>)
    ensures items == [] <==> r == []
  {
    if items == [] then [] else [title, ""] + items + [""]
  }

  function MemberParts(member: Element): seq<string> {
    ["### `" + Signature(member) + "`", ""] + MemberDetails(member)
  }

  function MemberDetails(member: Element): seq<string> {
    var returned := ExtractReturn(member);
    Described([RenderDescription(Find(member.children, "briefdescription")), RenderDescription(Find(member.children, "detaileddescription"))])
    + Block("**Parameters**", ParameterLines(ExtractParameters(member)))
    + (if returned != "" then ["**Returns:** " + returned, ""] else [])
    + Block("**Notes**", NoteLines(ExtractNotes(member)))
  }

  function ParameterLines(params: seq<(string, string)>): (r: seq<string>)
    ensures |r| == |params|
  {
    if params == [] then [] else ["- `" + params[0].0 + "`: " + params[0].1] + ParameterLines(params[1..])
  }

  function NoteLines(notes: seq<string>): (r: seq<string>)
    ensures |r| == |notes|
  {
    if notes == [] then [] else ["- " + notes[0]] + NoteLines(notes[1..])
  }

  /** `_RenderMember`. */
  function RenderMember(member: Element): string {
    WrapCard(Strip(Join(MemberParts(member), "\n")))
  }

  /** A member card opens the card markup, then the signature heading. */
  lemma MemberCardHeading(member: Element)
    ensures PrefixOf(CardOpen + "\n" + ("### `" + Signature(member) + "`"), RenderMember(member))
  {
    var heading := "### `" + Signature(member) + "`";
    HeadedCard(heading, MemberDetails(member));
    PrefixInside(CardOpen + "\n", heading, Strip(Strip(Join(MemberParts(member), "\n"))), "\n</div>");
  }

  /** Stripping twice keeps a heading that has no whitespace at either end. */
  lemma HeadedCard(heading: string, details: seq<string>)
    requires heading != [] && !PyIsSpace(heading[0]) && !PyIsSpace(heading[|heading| - 1])
    ensures PrefixOf(heading, Strip(Strip(Join([heading, ""] + details, "\n"))))
  {
    var rest := "\n" + Join([""] + details, "\n");
    JoinHeading(heading, details, "\n");
    StripKeepsFront(heading, rest);
    var once := Strip(heading + rest);
    PrefixSplit(heading, once);
    StripKeepsFront(heading, once[|heading|..]);
  }

  lemma PrefixSplit(p: string, s: string)
    requires PrefixOf(p, s)
    ensures s == p + s[|p|..]
  {
  }

  lemma PrefixInside(a: string, p: string, s: string, t: string)
    ensures PrefixOf(p, s) ==> PrefixOf(a + p, a + s + t)
  {
    if PrefixOf(p, s) {
      assert (a + s + t)[..|a + p|] == a + s[..|p|];
    }
  }

  /** `sep.join([x, ""] + rest)`: the heading, then the separator and the rest joined. */
  lemma JoinHeading(x: string, rest: seq<string>, sep: string)
    ensures Join([x, ""] + rest, sep) == x + (sep + Join([""] + rest, sep))
  {
    assert ([x, ""] + rest)[1..] == [""] + rest;
  }

  /** The stripped name of an enum value. */
  function ValueName(v: Element): string {
    Strip(FindText(v, "name"))
  }

  /** The line of one enum value: its name in backticks, then `: brief` when the brief is non-empty. */
  function EnumValueLine(v: Element): string {
    var brief := RenderDescription(Find(v.children, "briefdescription"));
    if brief != "" then "- `" + ValueName(v) + "`: " + brief else "- `" + ValueName(v) + "`"
  }

  /** The lines of an enum's values, skipping values without a name. */
  function EnumValueLines(values: seq<Element>): (r: seq<string>)
    ensures |r| <= |values|
  {
    if values == [] then []
    else (if ValueName(values[0]) != "" then [EnumValueLine(values[0])] else []) + EnumValueLines(values[1..])
  }

  /** The enum values whose stripped name is non-empty. */
  function NamedValues(values: seq<Element>): seq<Element> {
    if values == [] then []
    else (if ValueName(values[0]) != "" then [values[0]] else []) + NamedValues(values[1..])
  }

  /** An enum value gets a line exactly when its name is non-empty, in order. */
  lemma {:induction false} EnumValueLinesExact(values: seq<Element>)
    ensures |EnumValueLines(values)| == |NamedValues(values)|
    ensures forall k :: 0 <= k < |NamedValues(values)| ==> EnumValueLines(values)[k] == EnumValueLine(NamedValues(values)[k])
  {
    if values != [] {
      var rest := values[1..];
      EnumValueLinesExact(rest);
      var lines := EnumValueLines(values);
      var named := NamedValues(values);
      forall k | 0 <= k < |named| ensures lines[k] == EnumValueLine(named[k]) {
        if ValueName(values[0]) == "" {
          assert lines[k] == EnumValueLines(rest)[k] && named[k] == NamedValues(rest)[k];
        } else if k > 0 {
          assert lines[k] == EnumValueLines(rest)[k - 1] && named[k] == NamedValues(rest)[k - 1];
        }
      }
    }
  }

  function EnumParts(member: Element): seq<string> {
    var values := EnumValueLines(FindAll(member.children, "enumvalue"));
    ["### `enum " + Strip(FindText(member, "name")) + "`", ""]
    + Described([RenderDescription(Find(member.children, "briefdescription")), RenderDescription(Find(member.children, "detaileddescription"))])
    + (if values == [] then [] else ["**Values**", "", Join(values, "\n"), ""])
  }

  /** `_RenderEnum`. */
  function RenderEnum(member: Element): string {
    WrapCard(Join(EnumParts(member), "\n"))
  }

  /** An enum without named values has no Values block: only the heading and its descriptions. */
  lemma EnumWithoutValues(member: Element)
    requires NamedValues(FindAll(member.children, "enumvalue")) == []
    ensures EnumParts(member) == ["### `enum " + Strip(FindText(member, "name")) + "`", ""]
      + Described([RenderDescription(Find(member.children, "briefdescription")), RenderDescription(Find(member.children, "detaileddescription"))])
  {
    EnumValueLinesExact(FindAll(member.children, "enumvalue"));
  }

  /** `_RenderMembers`: enums and other members rendered, empty cards dropped. */
  function RenderMembers(members: seq<Element>): string {
    Join(NonEmpty(MemberCards(members)), "\n")
  }

  function MemberCards(members: seq<Element>): (r: seq<string>)
    ensures |r| == |members|
  {
    if members == [] then []
    else [if Attr(members[0], "kind") == "enum" then RenderEnum(members[0]) else RenderMember(members[0])] + MemberCards(members[1..])
  }

  // ---------------------------------------------------------------------
  // Parameters, returns and notes
  // ---------------------------------------------------------------------

  /** The `parameteritem`s under every `parameterlist kind="param"` below the detail, in document order. */
  function ParameterItems(detail: Option<Element>): seq<Element> {
    match detail
    case None => []
    case Some(d) => ItemsOfLists(Descendants(d))
  }

  function ItemsOfLists(nodes: seq<Element>): seq<Element> {
    if nodes == [] then []
    else
      var n := nodes[0];
      (if n.tag == "parameterlist" && Attr(n, "kind") == "param" then FindAll(n.children, "parameteritem") else [])
      + ItemsOfLists(nodes[1..])
  }

  /** The stripped, non-empty `parameternamelist/parametername` texts of one item. */
  function ItemNames(item: Element): seq<string> {
    NamesIn(NameLists(FindAll(item.children, "parameternamelist")))
  }

  function NameLists(lists: seq<Element>): seq<Element> {
    if lists == [] then [] else FindAll(lists[0].children, "parametername") + NameLists(lists[1..])
  }

  function NamesIn(names: seq<Element>): seq<string> {
    if names == [] then []
    else (if names[0].text != "" then [Strip(names[0].text)] else []) + NamesIn(names[1..])
  }

  /** The description dictionary: each item's names mapped to its description, later items winning. */
  function Descriptions(items: seq<Element>): map<string, string> {
    AssignAll(map[], Entries(items))
  }

  /** The (names, description) pair of each item, in order. */
  function Entries(items: seq<Element>): (r: seq<(seq<string>, string)>)
    ensures |r| == |items|
    ensures forall k :: 0 <= k < |items| ==> r[k] == (ItemNames(items[k]), ItemDescription(items[k]))
  {
    if items == [] then []
    else
      var rest := Entries(items[1..]);
      assert forall k :: 1 <= k < |items| ==> items[k] == items[1..][k - 1];
      [(ItemNames(items[0]), ItemDescription(items[0]))] + rest
  }

  /** `descriptions[name] = desc` for every name of every entry, first entry first. */
  function AssignAll(m: map<string, string>, entries: seq<(seq<string>, string)>): map<string, string>
    decreases |entries|
  {
    if entries == [] then m else AssignAll(Assign(m, entries[0].0, entries[0].1), entries[1..])
  }

  function Assign(m: map<string, string>, names: seq<string>, desc: string): (r: map<string, string>)
    ensures forall n :: n in r <==> n in m || n in names
    ensures forall n :: n in r ==> r[n] == if n in names then desc else m[n]
    decreases names
  {
    if names == [] then m else Assign(m[names[0] := desc], names[1..], desc)
  }

  /** A name no entry mentions keeps its old entry, or stays absent. */
  lemma {:induction false} AssignAllUntouched(m: map<string, string>, entries: seq<(seq<string>, string)>, name: string)
    requires forall k :: 0 <= k < |entries| ==> name !in entries[k].0
    ensures name in AssignAll(m, entries) <==> name in m
    ensures name in m ==> AssignAll(m, entries)[name] == m[name]
    decreases |entries|
  {
    if entries != [] {
      assert name !in entries[0].0;
      AssignAllUntouched(Assign(m, entries[0].0, entries[0].1), entries[1..], name);
    }
  }

  /** A name maps to the description of the last entry that mentions it. */
  lemma {:induction false} AssignAllLastWins(m: map<string, string>, entries: seq<(seq<string>, string)>, name: string, k: nat)
    requires k < |entries| && name in entries[k].0
    requires forall j :: k < j < |entries| ==> name !in entries[j].0
    ensures name in AssignAll(m, entries) && AssignAll(m, entries)[name] == entries[k].1
    decreases |entries|
  {
    var next := Assign(m, entries[0].0, entries[0].1);
    var rest := entries[1..];
    if k == 0 {
      AssignAllUntouched(next, rest, name);
    } else {
      AssignAllLastWins(next, rest, name, k - 1);
    }
  }

  /** A name no item names gets no entry. */
  lemma DescriptionsUnnamed(items: seq<Element>, name: string)
    requires forall k :: 0 <= k < |items| ==> name !in ItemNames(items[k])
    ensures name !in Descriptions(items)
  {
    AssignAllUntouched(map[], Entries(items), name);
  }

  /** A name gets the description of the last item naming it. */
  lemma DescriptionsLastWins(items: seq<Element>, name: string, k: nat)
    requires k < |items| && name in ItemNames(items[k])
    requires forall j :: k < j < |items| ==> name !in ItemNames(items[j])
    ensures name in Descriptions(items) && Descriptions(items)[name] == ItemDescription(items[k])
  {
    AssignAllLastWins(map[], Entries(items), name, k);
  }

  /** The rendered `parameterdescription` of one item. */
  function ItemDescription(item: Element): string {
    RenderDescription(Find(item.children, "parameterdescription"))
  }

  /** `param.findtext("declname") or param.findtext("defname") or ""`. */
  function ParamName(param: Element): string {
    var declared := FindText(param, "declname");
    if declared != "" then declared else FindText(param, "defname")
  }

  /** `_ExtractParameters`: one (name, description) pair per `param` with a name, in declaration order. */
  function ExtractParameters(member: Element): seq<(string, string)> {
    var descriptions := Descriptions(ParameterItems(Find(member.children, "detaileddescription")));
    ParamPairs(FindAll(member.children, "param"), descriptions)
  }

  function ParamPairs(params: seq<Element>, descriptions: map<string, string>): (r: seq<(string, string)>)
  {
    if params == [] then []
    else
      var name := ParamName(params[0]);
      (if name == "" then [] else [(name, if name in descriptions then descriptions[name] else "")])
      + ParamPairs(params[1..], descriptions)
  }

  /** The names a member's `param` elements give, nameless ones skipped. */
  function NamedParams(params: seq<Element>): seq<string> {
    if params == [] then []
    else (if ParamName(params[0]) != "" then [ParamName(params[0])] else []) + NamedParams(params[1..])
  }

  /** The pairs follow the named params in order, each with its dictionary entry or "". */
  lemma {:induction false} ParamPairsExact(params: seq<Element>, descriptions: map<string, string>)
    ensures var r := ParamPairs(params, descriptions);
      |r| == |NamedParams(params)|
      && forall k :: 0 <= k < |r| ==>
        r[k].0 == NamedParams(params)[k] && r[k].0 != ""
        && r[k].1 == (if r[k].0 in descriptions then descriptions[r[k].0] else "")
  {
    if params != [] {
      ParamPairsExact(params[1..], descriptions);
    }
  }

  /** `_ExtractReturn`: the first `simplesect kind="return"` below the detail, rendered. */
  function ExtractReturn(member: Element): string {
    match Find(member.children, "detaileddescription")
    case None => ""
    case Some(d) => RenderDescription(FirstSect(Descendants(d), "return"))
  }

  /** A `simplesect` of the given kind. */
  predicate IsSect(e: Element, kind: string) {
    e.tag == "simplesect" && Attr(e, "kind") == kind
  }

  function FirstSect(nodes: seq<Element>, kind: string): Option<Element> {
    if nodes == [] then None
    else if IsSect(nodes[0], kind) then Some(nodes[0])
    else FirstSect(nodes[1..], kind)
  }

  /**
   * `find(".//simplesect[@kind=...]")` gives the first matching node in
   * document order, and nothing exactly when no node matches.
   */
  lemma {:induction false} FirstSectExact(nodes: seq<Element>, kind: string)
    ensures FirstSect(nodes, kind).None? <==> forall j :: 0 <= j < |nodes| ==> !IsSect(nodes[j], kind)
    ensures FirstSect(nodes, kind).Some? ==>
      exists j :: 0 <= j < |nodes| && nodes[j] == FirstSect(nodes, kind).value && IsSect(nodes[j], kind)
        && forall i :: 0 <= i < j ==> !IsSect(nodes[i], kind)
  {
    if nodes != [] && !IsSect(nodes[0], kind) {
      FirstSectExact(nodes[1..], kind);
      assert forall j :: 1 <= j < |nodes| ==> nodes[j] == nodes[1..][j - 1];
      if FirstSect(nodes, kind).Some? {
        var j :| 0 <= j < |nodes[1..]| && nodes[1..][j] == FirstSect(nodes, kind).value && IsSect(nodes[1..][j], kind)
          && forall i :: 0 <= i < j ==> !IsSect(nodes[1..][i], kind);
        assert nodes[j + 1] == FirstSect(nodes, kind).value;
      }
    }
  }

  /** `_ExtractNotes`: every `simplesect kind="note"` below the detail that renders non-empty. */
  function ExtractNotes(member: Element): seq<string> {
    match Find(member.children, "detaileddescription")
    case None => []
    case Some(d) => NonEmpty(NoteTexts(Descendants(d)))
  }

  function NoteTexts(nodes: seq<Element>): seq<string> {
    if nodes == [] then []
    else
      (if IsSect(nodes[0], "note") then [RenderDescription(Some(nodes[0]))] else [])
      + NoteTexts(nodes[1..])
  }

  // ---------------------------------------------------------------------
  // Compound pages
  // ---------------------------------------------------------------------

  /** `_SectionTitle`: the titles of the known section kinds. */
  const SectionTitles: seq<(string, string)> := [
    ("public-func", "Public Functions"),
    ("public-static-func", "Public Static Functions"),
    ("public-attrib", "Public Members"),
    ("public-static-attrib", "Public Static Members"),
    ("public-type", "Public Types"),
    ("protected-func", "Protected Functions"),
    ("protected-attrib", "Protected Members"),
    ("protected-type", "Protected Types"),
    ("private-func", "Private Functions"),
    ("private-attrib", "Private Members"),
    ("private-type", "Private Types"),
    ("friend", "Friends"),
    ("define", "Macros"),
    ("func", "Functions"),
    ("var", "Variables"),
    ("typedef", "Type Aliases"),
    ("enum", "Enumerations")
  ]

  /** The title the table gives a kind. */
  function TableTitle(table: seq<(string, string)>, kind: string): (r: Option<string>)
    ensures r.Some? <==> exists k :: 0 <= k < |table| && table[k].0 == kind
    ensures r.Some? ==> exists k :: 0 <= k < |table| && table[k] == (kind, r.value)
  {
    if table == [] then None
    else if table[0].0 == kind then Some(table[0].1)
    else
      var rest := TableTitle(table[1..], kind);
      assert forall k :: 1 <= k < |table| ==> table[k] == table[1..][k - 1];
      rest
  }

  /** A known kind's title from the table, any other kind title-cased with dashes as spaces. */
  function SectionTitle(kind: string): (r: string)
    ensures TableTitle(SectionTitles, kind).Some? ==> r == TableTitle(SectionTitles, kind).value
    ensures TableTitle(SectionTitles, kind).None? ==> r == FallbackTitle(kind)
  {
    match TableTitle(SectionTitles, kind)
    case Some(title) => title
    case None => FallbackTitle(kind)
  }

  /** `kind.replace("-", " ").title()`: as long as the kind, with a space exactly where it had a dash or a space. */
  function FallbackTitle(kind: string): (r: string)
    ensures |r| == |kind|
    ensures forall k :: 0 <= k < |kind| ==> (r[k] == ' ' <==> kind[k] == '-' || kind[k] == ' ')
  {
    TitleCase(DashesToSpaces(kind))
  }

  /** The fallback title gives each word a capital and lower case after it. */
  lemma FallbackTitleWords(kind: string, k: nat)
    requires k < |kind| && IsAsciiLetter(kind[k])
    ensures var r := FallbackTitle(kind);
      if k > 0 && IsAsciiLetter(DashesToSpaces(kind)[k - 1]) then IsLower(r[k]) else IsUpper(r[k])
  {
    TitleFromAt(DashesToSpaces(kind), false, k);
  }

  /** `_RenderInner`: a line per named inner namespace, then per named inner type. */
  function RenderInner(compounddef: Element): string {
    Join(InnerLines(FindAll(compounddef.children, "innernamespace"), "Namespace")
      + InnerLines(FindAll(compounddef.children, "innerclass"), "Type"), "\n")
  }

  function InnerLines(inners: seq<Element>, kindLabel: string): seq<string> {
    if inners == [] then []
    else
      var name := Strip(inners[0].text);
      (if name != "" then ["- **" + kindLabel + ":** " + name] else []) + InnerLines(inners[1..], kindLabel)
  }

  /** The line `_RenderInner` writes for a named inner element. */
  function InnerLine(inner: Element, kindLabel: string): string {
    "- **" + kindLabel + ":** " + Strip(inner.text)
  }

  /** One line per inner element with a non-blank name, and no other line. */
  lemma {:induction false} InnerLinesExact(inners: seq<Element>, kindLabel: string)
    ensures |InnerLines(inners, kindLabel)| <= |inners|
    ensures forall j :: 0 <= j < |inners| && Strip(inners[j].text) != "" ==>
      InnerLine(inners[j], kindLabel) in InnerLines(inners, kindLabel)
    ensures forall l :: l in InnerLines(inners, kindLabel) ==>
      exists j :: 0 <= j < |inners| && Strip(inners[j].text) != "" && l == InnerLine(inners[j], kindLabel)
  {
    if inners != [] {
      InnerLinesExact(inners[1..], kindLabel);
      assert forall j :: 1 <= j < |inners| ==> inners[j] == inners[1..][j - 1];
    }
  }

  /** `_RenderSections`: a titled block per section whose members render non-empty. */
  function RenderSections(compounddef: Element): string {
    Strip(Join(SectionParts(FindAll(compounddef.children, "sectiondef")), "\n"))
  }

  function SectionParts(sections: seq<Element>): seq<string> {
    if sections == [] then []
    else
      var rendered := RenderMembers(FindAll(sections[0].children, "memberdef"));
      (if rendered != "" then ["## " + SectionTitle(Attr(sections[0], "kind")), "", rendered, ""] else [])
      + SectionParts(sections[1..])
  }

  /** Sections whose members all render empty leave no trace. */
  lemma {:induction false} EmptySectionsVanish(sections: seq<Element>)
    requires forall k :: 0 <= k < |sections| ==> RenderMembers(FindAll(sections[k].children, "memberdef")) == ""
    ensures SectionParts(sections) == []
  {
    if sections != [] {
      EmptySectionsVanish(sections[1..]);
    }
  }

  const PageKinds: set<string> := {"class", "struct", "namespace", "file", "union", "concept"}

  predicate PageKind(kind: string) {
    kind in PageKinds
  }

  /** A generated page ends in exactly one newline. */
  predicate EndsWithOneNewline(s: string) {
    |s| >= 2 && s[|s| - 1] == '\n' && !PyIsSpace(s[|s| - 2])
  }

  /**
   * `_RenderCompound`. `detailXml` holds the parsed `<refid>.xml` files that
   * exist; a missing file or a missing `compounddef` gives a placeholder page.
   */
  function RenderCompound(c: Compound, detailXml: map<string, Element>): (r: string)
    ensures c.refid !in detailXml ==> r == "# " + c.name + "\n\n_Unable to locate XML for " + c.refid + "._\n"
    ensures c.refid in detailXml && Find(detailXml[c.refid].children, "compounddef").None? ==>
      r == "# " + c.name + "\n\n_Empty compound definition._\n"
    ensures c.refid in detailXml && Find(detailXml[c.refid].children, "compounddef").Some? ==>
      r == PageText(PageTitle(c), CompoundDetails(Find(detailXml[c.refid].children, "compounddef").value))
    ensures c.refid in detailXml && Find(detailXml[c.refid].children, "compounddef").Some? && c.kind == "file" ==>
      PrefixOf("# " + PageTitle(c), r)
    ensures EndsWithOneNewline(r)
    ensures r[0] == '#'
  {
    if c.refid !in detailXml then "# " + c.name + "\n\n_Unable to locate XML for " + c.refid + "._\n"
    else match Find(detailXml[c.refid].children, "compounddef")
      case None => "# " + c.name + "\n\n_Empty compound definition._\n"
      case Some(def) => PageText(PageTitle(c), CompoundDetails(def))
  }

  /**
   * The page of a compound with a definition: the `# title` heading, a blank
   * line and the detail lines, stripped and ended with one newline. It starts
   * with the whole heading when the title ends in a character that is not
   * whitespace.
   */
  function PageText(title: string, details: seq<string>): (r: string)
    ensures EndsWithOneNewline(r)
    ensures r[0] == '#'
    ensures title != [] && !PyIsSpace(title[|title| - 1]) ==> PrefixOf("# " + title, r)
  {
    var page := Strip(Join(["# " + title, ""] + details, "\n"));
    HeadedPage(title, details);
    PrefixInside([], "# " + title, page, "\n");
    page + "\n"
  }

  /** A file page is titled File `name`, any other page by its name. */
  function PageTitle(c: Compound): (r: string)
    ensures c.kind == "file" ==> r != [] && r[|r| - 1] == '`'
  {
    if c.kind == "file" then "File `" + c.name + "`" else c.name
  }

  function CompoundDetails(def: Element): seq<string> {
    var contents := RenderInner(def);
    var members := RenderSections(def);
    Described([RenderDescription(Find(def.children, "briefdescription")), RenderDescription(Find(def.children, "detaileddescription"))])
    + (if contents != "" then ["## Contents", "", contents, ""] else [])
    + (if members != "" then [members] else [])
  }

  /**
   * A stripped page body keeps its leading `#`, so it ends in a character
   * that is not whitespace; a title that ends in one is kept whole.
   */
  lemma HeadedPage(title: string, details: seq<string>)
    ensures var s := Strip(Join(["# " + title, ""] + details, "\n"));
      s != [] && s[0] == '#' && !PyIsSpace(s[|s| - 1])
      && (title != [] && !PyIsSpace(title[|title| - 1]) ==> PrefixOf("# " + title, s))
  {
    var heading := "# " + title;
    var rest := "\n" + Join([""] + details, "\n");
    JoinHeading(heading, details, "\n");
    StripKeepsFirst(heading + rest);
    StripEnds(heading + rest);
    if title != [] && !PyIsSpace(title[|title| - 1]) {
      StripKeepsFront(heading, rest);
    }
  }

  // ---------------------------------------------------------------------
  // The index
  // ---------------------------------------------------------------------

  /** What `_LoadIndex` keeps of one child of the index root. */
  function Loaded(e: Element): (r: seq<Compound>)
    ensures |r| <= 1
  {
    var refid := Attr(e, "refid");
    var name := match Find(e.children, "name")
      case Some(n) => if n.text != "" then Strip(n.text) else refid
      case None => refid;
    if e.tag == "compound" && refid != "" then [Compound(refid, Attr(e, "kind"), name)] else []
  }

  /** The compounds of an index, in document order. */
  function IndexCompounds(children: seq<Element>): (r: seq<Compound>)
    ensures |r| <= |children|
  {
    if children == [] then [] else IndexCompounds(children[..|children| - 1]) + Loaded(children[|children| - 1])
  }

  lemma IndexCompoundsSnoc(children: seq<Element>, i: nat)
    requires i < |children|
    ensures IndexCompounds(children[..i + 1]) == IndexCompounds(children[..i]) + Loaded(children[i])
  {
    assert children[..i + 1][..i] == children[..i];
  }

  /**
   * Every loaded compound comes from a `compound` element with a non-empty
   * refid, named by its stripped name text, or by the refid when the name is
   * missing or has no text.
   */
  lemma {:induction false} IndexCompoundsFrom(children: seq<Element>)
    ensures var r := IndexCompounds(children);
      |r| == |CompoundElements(children)|
      && forall k :: 0 <= k < |r| ==> (var e := CompoundElements(children)[k];
        r[k].refid == Attr(e, "refid") && r[k].refid != "" && r[k].kind == Attr(e, "kind")
        && r[k].name == (match Find(e.children, "name")
            case Some(n) => if n.text != "" then Strip(n.text) else r[k].refid
            case None => r[k].refid))
  {
    if children != [] {
      IndexCompoundsFrom(children[..|children| - 1]);
    }
  }

  /** The `compound` children that carry a refid. */
  function CompoundElements(children: seq<Element>): seq<Element> {
    if children == [] then []
    else
      var last := children[|children| - 1];
      CompoundElements(children[..|children| - 1]) + (if last.tag == "compound" && Attr(last, "refid") != "" then [last] else [])
  }

  function ByName(a: Compound, b: Compound): bool {
    StrLess(a.name, b.name)
  }

  function OfKinds(compounds: seq<Compound>, kinds: set<string>): (r: seq<Compound>)
    ensures forall k :: 0 <= k < |r| ==> r[k].kind in kinds
  {
    if compounds == [] then []
    else (if compounds[0].kind in kinds then [compounds[0]] else []) + OfKinds(compounds[1..], kinds)
  }

  const TypeKinds: set<string> := {"class", "struct", "union", "concept"}

  /** The three partitions of `_WriteIndexes`, each sorted by name (stably, as `sorted` is). */
  function Namespaces(compounds: seq<Compound>): seq<Compound> {
    SortBy(OfKinds(compounds, {"namespace"}), ByName)
  }

  function Types(compounds: seq<Compound>): seq<Compound> {
    SortBy(OfKinds(compounds, TypeKinds), ByName)
  }

  function Files(compounds: seq<Compound>): seq<Compound> {
    SortBy(OfKinds(compounds, {"file"}), ByName)
  }

  lemma ByNameWeakOrder()
    ensures StrictWeakOrder(ByName)
  {
    StrLessWeakOrder();
    forall a: Compound ensures !ByName(a, a) {
      assert !StrLess(a.name, a.name);
    }
    forall a: Compound, b: Compound, c: Compound | ByName(a, b) && ByName(b, c) ensures ByName(a, c) {
      StrLessTransitive(a.name, b.name, c.name);
    }
    forall a: Compound, b: Compound, c: Compound | ByName(a, b) ensures ByName(a, c) || ByName(c, b) {
      assert StrLess(a.name, b.name) ==> StrLess(a.name, c.name) || StrLess(c.name, b.name);
    }
  }

  /**
   * Each partition is sorted by name and holds exactly the compounds of its
   * kinds; together they hold every compound that gets a page.
   */
  lemma PartitionsSorted(compounds: seq<Compound>)
    ensures SortedBy(Namespaces(compounds), ByName) && multiset(Namespaces(compounds)) == multiset(OfKinds(compounds, {"namespace"}))
    ensures SortedBy(Types(compounds), ByName) && multiset(Types(compounds)) == multiset(OfKinds(compounds, TypeKinds))
    ensures SortedBy(Files(compounds), ByName) && multiset(Files(compounds)) == multiset(OfKinds(compounds, {"file"}))
    ensures multiset(Namespaces(compounds)) + multiset(Types(compounds)) + multiset(Files(compounds))
      == multiset(OfKinds(compounds, PageKinds))
  {
    ByNameWeakOrder();
    SortByCorrect(OfKinds(compounds, {"namespace"}), ByName);
    SortByCorrect(OfKinds(compounds, TypeKinds), ByName);
    SortByCorrect(OfKinds(compounds, {"file"}), ByName);
    PartitionSplit(compounds);
  }

  /** The three partitions hold between them exactly the compounds that get a page. */
  predicate PartitionHolds(compounds: seq<Compound>) {
    multiset(OfKinds(compounds, {"namespace"})) + multiset(OfKinds(compounds, TypeKinds)) + multiset(OfKinds(compounds, {"file"}))
      == multiset(OfKinds(compounds, PageKinds))
  }

  lemma {:induction false} PartitionSplit(compounds: seq<Compound>)
    ensures PartitionHolds(compounds)
  {
    if compounds != [] {
      PartitionSplit(compounds[1..]);
      PartitionStep(compounds);
    }
  }

  lemma PartitionStep(compounds: seq<Compound>)
    requires compounds != [] && PartitionHolds(compounds[1..])
    ensures PartitionHolds(compounds)
  {
    var c := compounds[0];
    var rest := compounds[1..];
    assert OfKinds(compounds, {"namespace"}) == (if c.kind in {"namespace"} then [c] else []) + OfKinds(rest, {"namespace"});
    assert OfKinds(compounds, TypeKinds) == (if c.kind in TypeKinds then [c] else []) + OfKinds(rest, TypeKinds);
    assert OfKinds(compounds, {"file"}) == (if c.kind in {"file"} then [c] else []) + OfKinds(rest, {"file"});
    assert OfKinds(compounds, PageKinds) == (if c.kind in PageKinds then [c] else []) + OfKinds(rest, PageKinds);
    KindGroups(c.kind);
    SplitStep(c, OfKinds(rest, {"namespace"}), OfKinds(rest, TypeKinds), OfKinds(rest, {"file"}), OfKinds(rest, PageKinds),
      c.kind in {"namespace"}, c.kind in TypeKinds, c.kind in {"file"});
  }

  /** Adding one element that lands in at most one of three parts keeps the parts summing to the whole. */
  lemma SplitStep<T>(c: T, a: seq<T>, b: seq<T>, d: seq<T>, whole: seq<T>, inA: bool, inB: bool, inD: bool)
    requires multiset(a) + multiset(b) + multiset(d) == multiset(whole)
    requires !(inA && inB) && !(inA && inD) && !(inB && inD)
    ensures multiset((if inA then [c] else []) + a) + multiset((if inB then [c] else []) + b) + multiset((if inD then [c] else []) + d)
      == multiset((if inA || inB || inD then [c] else []) + whole)
  {
  }

  /** A page kind falls in exactly one of the three index partitions. */
  lemma KindGroups(kind: string)
    ensures kind in PageKinds <==> kind == "namespace" || kind in TypeKinds || kind == "file"
    ensures !(kind == "namespace" && kind in TypeKinds) && !(kind == "file" && kind in TypeKinds)
  {
  }

  /** One index line. */
  function ItemLine(c: Compound): string {
    "- [" + c.name + "](" + c.refid + ".md)"
  }

  function ItemLines(items: seq<Compound>): (r: seq<string>)
    ensures |r| == |items|
    ensures forall k :: 0 <= k < |items| ==> r[k] == ItemLine(items[k])
  {
    if items == [] then [] else [ItemLine(items[0])] + ItemLines(items[1..])
  }

  /** `render_list`: the item lines joined by newlines, or `_None_` for an empty partition. */
  function IndexList(items: seq<Compound>): string {
    if items == [] then "_None_" else Join(ItemLines(items), "\n")
  }

  /**
   * `_None_` stands exactly for an empty partition; otherwise, when no name or
   * refid holds a newline, the list has one line per item.
   */
  lemma IndexListLines(items: seq<Compound>)
    ensures IndexList(items) == "_None_" <==> items == []
    ensures items != [] && (forall k :: 0 <= k < |items| ==> Count(items[k].name, '\n') == 0 && Count(items[k].refid, '\n') == 0) ==>
      Count(IndexList(items), '\n') + 1 == |items|
  {
    if items != [] {
      var lines := ItemLines(items);
      assert PrefixOf("- [", lines[0]);
      JoinFront(lines, "\n");
      assert IndexList(items)[0] == '-';
      if forall k :: 0 <= k < |items| ==> Count(items[k].name, '\n') == 0 && Count(items[k].refid, '\n') == 0 {
        forall k | 0 <= k < |lines| ensures Count(lines[k], '\n') == 0 {
          ItemLineCount(items[k]);
        }
        JoinCount(lines, '\n');
      }
    }
  }

  lemma JoinFront(parts: seq<string>, sep: string)
    requires parts != []
    ensures PrefixOf(parts[0], Join(parts, sep))
  {
  }

  lemma ItemLineCount(c: Compound)
    requires Count(c.name, '\n') == 0 && Count(c.refid, '\n') == 0
    ensures Count(ItemLine(c), '\n') == 0
  {
    CountAppend("- [", c.name, '\n');
    CountAppend("- [" + c.name, "](", '\n');
    CountAppend("- [" + c.name + "](", c.refid, '\n');
    CountAppend("- [" + c.name + "](" + c.refid, ".md)", '\n');
  }

  /** The overview page with the three partition sizes. */
  function OverviewPage(compounds: seq<Compound>): string {
    "# API Reference\n\nThis section is generated from Doxygen XML output and rendered inside MkDocs.\n\n"
    + "- **Namespaces:** " + DecimalText(|Namespaces(compounds)|) + "\n"
    + "- **Types:** " + DecimalText(|Types(compounds)|) + "\n"
    + "- **Files:** " + DecimalText(|Files(compounds)|) + "\n\n"
    + "## Quick Index\n\n- [Namespaces](namespaces.md)\n- [Types](types.md)\n- [Files](files.md)\n"
  }

  /** The overview and the three partition pages. */
  function IndexPages(compounds: seq<Compound>): (r: seq<(string, string)>)
    ensures |r| == 4
  {
    [("index.md", OverviewPage(compounds)),
     ("namespaces.md", "# Namespaces\n\n" + IndexList(Namespaces(compounds)) + "\n"),
     ("types.md", "# Types\n\n" + IndexList(Types(compounds)) + "\n"),
     ("files.md", "# Files\n\n" + IndexList(Files(compounds)) + "\n")]
  }

  /** The page of one compound, when its kind gets one. */
  function PageFor(c: Compound, detailXml: map<string, Element>): seq<(string, string)> {
    if PageKind(c.kind) then [(c.refid + ".md", RenderCompound(c, detailXml))] else []
  }

  function CompoundPages(compounds: seq<Compound>, detailXml: map<string, Element>): seq<(string, string)> {
    if compounds == [] then [] else CompoundPages(compounds[..|compounds| - 1], detailXml) + PageFor(compounds[|compounds| - 1], detailXml)
  }

  /** One page per compound of a page kind, in index order, named after its refid. */
  lemma {:induction false} CompoundPagesExact(compounds: seq<Compound>, detailXml: map<string, Element>)
    ensures var pages := CompoundPages(compounds, detailXml); var kept := OfKinds(compounds, PageKinds);
      |pages| == |kept|
      && forall k :: 0 <= k < |pages| ==> pages[k] == (kept[k].refid + ".md", RenderCompound(kept[k], detailXml))
  {
    if compounds != [] {
      var front := compounds[..|compounds| - 1];
      var last := compounds[|compounds| - 1];
      CompoundPagesExact(front, detailXml);
      OfKindsSnoc(front, last, PageKinds);
      assert compounds == front + [last];
    }
  }

  lemma {:induction false} OfKindsSnoc(front: seq<Compound>, last: Compound, kinds: set<string>)
    ensures OfKinds(front + [last], kinds) == OfKinds(front, kinds) + (if last.kind in kinds then [last] else [])
  {
    if front != [] {
      assert (front + [last])[1..] == front[1..] + [last];
      OfKindsSnoc(front[1..], last, kinds);
    } else {
      assert [last][1..] == [];
    }
  }

  // ---------------------------------------------------------------------
  // The generator
  // ---------------------------------------------------------------------

  /** `DoxygenApiGenerator`: the compounds loaded from the index. */
  class DoxygenApiGenerator {
    var compounds: seq<Compound>

    constructor()
      ensures compounds == []
    {
      compounds := [];
    }

    /** `_LoadIndex`: a missing index fails; otherwise the index's compounds are appended. */
    method LoadIndex(index: Option<Element>) returns (r: Outcome)
      modifies this
      ensures index.None? ==> r == Fail(NotFound) && compounds == old(compounds)
      ensures index.Some? ==> r == Done && compounds == old(compounds) + IndexCompounds(index.value.children)
    {
      if index.None? {
        return Fail(NotFound);
      }
      var children := index.value.children;
      var i := 0;
      while i < |children|
        invariant i <= |children|
        invariant compounds == old(compounds) + IndexCompounds(children[..i])
      {
        IndexCompoundsSnoc(children, i);
        compounds := compounds + Loaded(children[i]);
        i := i + 1;
      }
      assert children[..i] == children;
      r := Done;
    }

    /** `_WriteCompoundPages`: the page of every compound of a page kind, in index order. */
    method WriteCompoundPages(detailXml: map<string, Element>) returns (pages: seq<(string, string)>)
      ensures pages == CompoundPages(compounds, detailXml)
    {
      pages := [];
      var i := 0;
      while i < |compounds|
        invariant i <= |compounds|
        invariant pages == CompoundPages(compounds[..i], detailXml)
      {
        assert compounds[..i + 1][..i] == compounds[..i];
        if PageKind(compounds[i].kind) {
          pages := pages + [(compounds[i].refid + ".md", RenderCompound(compounds[i], detailXml))];
        }
        i := i + 1;
      }
      assert compounds[..i] == compounds;
    }

    /** `_WriteIndexes`: the overview and the three partition pages. */
    method WriteIndexes() returns (pages: seq<(string, string)>)
      ensures pages == IndexPages(compounds)
    {
      var namespaces := RenderIndexList(Namespaces(compounds));
      var types := RenderIndexList(Types(compounds));
      var files := RenderIndexList(Files(compounds));
      pages := [
        ("index.md", OverviewPage(compounds)),
        ("namespaces.md", "# Namespaces\n\n" + namespaces + "\n"),
        ("types.md", "# Types\n\n" + types + "\n"),
        ("files.md", "# Files\n\n" + files + "\n")];
    }
  }

  /** `render_list`, as the loop that collects the lines. */
  method RenderIndexList(items: seq<Compound>) returns (r: string)
    ensures r == IndexList(items)
  {
    var lines: seq<string> := [];
    var i := 0;
    while i < |items|
      invariant i <= |items|
      invariant lines == ItemLines(items[..i])
    {
      ItemLinesSnoc(items[..i], items[i]);
      assert items[..i + 1] == items[..i] + [items[i]];
      lines := lines + [ItemLine(items[i])];
      i := i + 1;
    }
    assert items[..i] == items;
    r := if lines == [] then "_None_" else Join(lines, "\n");
  }

  lemma {:induction false} ItemLinesSnoc(items: seq<Compound>, c: Compound)
    ensures ItemLines(items + [c]) == ItemLines(items) + [ItemLine(c)]
  {
    assert |ItemLines(items + [c])| == |items| + 1;
  }

  /**
   * `Run` without the file system: load the index, then the compound pages
   * followed by the index pages.
   */
  method Run(index: Option<Element>, detailXml: map<string, Element>) returns (r: Outcome, pages: seq<(string, string)>)
    ensures index.None? ==> r == Fail(NotFound) && pages == []
    ensures index.Some? ==> (var loaded := IndexCompounds(index.value.children);
      r == Done && pages == CompoundPages(loaded, detailXml) + IndexPages(loaded))
  {
    var generator := new DoxygenApiGenerator();
    r := generator.LoadIndex(index);
    if r.Fail? {
      return r, [];
    }
    assert generator.compounds == IndexCompounds(index.value.children);
    var compoundPages := generator.WriteCompoundPages(detailXml);
    var indexPages := generator.WriteIndexes();
    pages := compoundPages + indexPages;
  }
}
