/** The Markdown renderer of the page download script (scripts/download-notion-pages.ts): rich
    text, blocks with their already fetched children, the page title and the document with its
    front matter. */
module PageDownload {
  import opened Wrappers
  import opened Strings
  import opened NotionTypes
  import Notion

  // ---------------------------------------------------------------- rich text

  /** The markup opened before a fragment's text: the link outermost, then code,
      strikethrough, italic and bold innermost. A link needs a non-empty `href`. */
  function Opening(span: Span): string {
    var a := span.annotations;
    (if span.href.Some? && span.href.value != "" then "[" else "")
    + ((if a.code then "`" else "") + ((if a.strikethrough then "~~" else "") + ((if a.italic then "*" else "") + (if a.bold then "**" else ""))))
  }

  /** The markup closed after a fragment's text, in the reverse order. */
  function Closing(span: Span): string {
    var a := span.annotations;
    ((((if a.bold then "**" else "") + (if a.italic then "*" else "")) + (if a.strikethrough then "~~" else "")) + (if a.code then "`" else ""))
    + (if span.href.Some? && span.href.value != "" then "](" + span.href.value + ")" else "")
  }

  predicate IsPlain(span: Span) {
    span.annotations == Annotations(false, false, false, false) && (span.href.None? || span.href.value == "")
  }

  /** `if (flag) content = open + content + close`. */
  function WrapIf(on: bool, open: string, c: string, close: string): (r: string)
    ensures r == (if on then open else "") + c + (if on then close else "")
  {
    if on then open + c + close else (assert "" + c + "" == c; c)
  }

  /** One fragment: each annotation wraps what the previous ones produced, then the link. */
  function RenderSpan(span: Span): (r: string)
    ensures IsPlain(span) ==> r == span.plainText
  {
    var a := span.annotations;
    var c1 := WrapIf(a.bold, "**", span.plainText, "**");
    var c2 := WrapIf(a.italic, "*", c1, "*");
    var c3 := WrapIf(a.strikethrough, "~~", c2, "~~");
    var c4 := WrapIf(a.code, "`", c3, "`");
    if span.href.Some? && span.href.value != "" then WrapIf(true, "[", c4, "](" + span.href.value + ")") else c4
  }

  /** Wrapping `open + c + close` once more in `o`, `cl`. */
  lemma Layer(o: string, cl: string, open: string, close: string, c: string)
    ensures o + (open + c + close) + cl == (o + open) + c + (close + cl)
  {
  }

  /** The nested wrapping is the fixed flat markup around the text: the fragment's text occurs
      unchanged, preceded by `Opening` and followed by `Closing`. */
  lemma RenderSpanWraps(span: Span)
    ensures RenderSpan(span) == Opening(span) + span.plainText + Closing(span)
  {
    var a := span.annotations;
    var link := span.href.Some? && span.href.value != "";
    var c0 := span.plainText;
    var ob, oi, os, oc := (if a.bold then "**" else ""), (if a.italic then "*" else ""),
      (if a.strikethrough then "~~" else ""), (if a.code then "`" else "");
    var ol := if link then "[" else "";
    var cl := if link then "](" + span.href.value + ")" else "";
    var c1 := WrapIf(a.bold, "**", c0, "**");
    var c2 := WrapIf(a.italic, "*", c1, "*");
    Layer(oi, oi, ob, ob, c0);
    var c3 := WrapIf(a.strikethrough, "~~", c2, "~~");
    Layer(os, os, oi + ob, ob + oi, c0);
    var c4 := WrapIf(a.code, "`", c3, "`");
    Layer(oc, oc, os + (oi + ob), (ob + oi) + os, c0);
    var c5 := WrapIf(link, "[", c4, cl);
    Layer(ol, cl, oc + (os + (oi + ob)), ((ob + oi) + os) + oc, c0);
    assert RenderSpan(span) == c5;
  }

  /** `extractRichText`: the fragments rendered and concatenated in order. */
  function RichText(spans: seq<Span>): (r: string)
    ensures (forall i :: 0 <= i < |spans| ==> IsPlain(spans[i])) ==> r == Notion.PlainText(spans)
  {
    if spans == [] then "" else RichText(spans[..|spans| - 1]) + RenderSpan(spans[|spans| - 1])
  }

  // ---------------------------------------------------------------- blocks

  /** The line marker of the block types rendered as marker + text. */
  function LinePrefix(t: BlockType): Option<string> {
    match t
    case Paragraph => Some("")
    case Heading1 => Some("# ")
    case Heading2 => Some("## ")
    case Heading3 => Some("### ")
    case BulletedListItem => Some("- ")
    case NumberedListItem => Some("1. ")
    case Quote => Some("> ")
    case _ => None
  }

  /** The `switch` of `convertBlockToMarkdown`: the block's own content. */
  function OwnContent(b: Block): string {
    var text := RichText(b.richText);
    match b.blockType
    case ToDo => (if b.checked then "[x]" else "[ ]") + " " + text
    case Code => "```" + b.language + "\n" + text + "\n```"
    case Divider => "---"
    case Unsupported(name) => if text != "" then "*[" + name + "]* " + text else ""
    case _ => LinePrefix(b.blockType).value + text
  }

  /** The rendering of each block type other than a to-do: marker and text for the text blocks
      (a numbered item is always `1. `), a fence tagged with the language for code, a rule for a
      divider, and for any other type its name before its text, or nothing without text. */
  lemma OwnContentCases(b: Block)
    ensures var content, text := OwnContent(b), RichText(b.richText);
      && (LinePrefix(b.blockType).Some? ==> content == LinePrefix(b.blockType).value + text)
      && (b.blockType == Code ==> content == "```" + b.language + "\n" + text + "\n```")
      && (b.blockType == Divider ==> content == "---")
      && (b.blockType.Unsupported? ==> content == (if text == "" then "" else "*[" + b.blockType.name + "]* " + text))
  {
  }

  /** A to-do renders as a check box, ticked when checked, a space and its text. */
  lemma ToDoContent(b: Block)
    requires b.blockType == ToDo
    ensures OwnContent(b) == (if b.checked then "[x] " else "[ ] ") + RichText(b.richText)
  {
    var box := if b.checked then "[x]" else "[ ]";
    Assoc(box, " ", RichText(b.richText));
  }

  /** Each line behind two spaces. */
  function IndentEach(lines: seq<string>): (r: seq<string>)
    ensures |r| == |lines|
    ensures forall i :: 0 <= i < |lines| ==> r[i] == "  " + lines[i]
  {
    if lines == [] then [] else IndentEach(lines[..|lines| - 1]) + ["  " + lines[|lines| - 1]]
  }

  /** `split('\n').map(line => `  ${line}`).join('\n')`. */
  function Indent(nested: string): string {
    Join(IndentEach(Split(nested, '\n')), "\n")
  }

  /** The lines of the indented text are the original lines, each behind two spaces; so it is
      never empty. */
  lemma IndentLines(nested: string)
    ensures Split(Indent(nested), '\n') == IndentEach(Split(nested, '\n'))
    ensures Indent(nested) != ""
  {
    var indented := IndentEach(Split(nested, '\n'));
    forall i | 0 <= i < |indented| ensures '\n' !in indented[i] {
      assert '\n' !in Split(nested, '\n')[i];
    }
    SplitJoin(indented, '\n');
    JoinFirst(indented, "\n");
  }

  /** The block's own content, then its children indented on the lines after it. */
  function BlockMarkdown(b: Block): string
    decreases b, 1
  {
    var content := OwnContent(b);
    var nested := BlocksMarkdown(b.children);
    if nested != "" then
      var indented := Indent(nested);
      if content != "" then content + "\n" + indented else indented
    else content
  }

  /** The renderings of the blocks that are not empty, in order. */
  function Rendered(blocks: seq<Block>): seq<string>
    decreases blocks, 0
  {
    if blocks == [] then []
    else
      var m := BlockMarkdown(blocks[|blocks| - 1]);
      Rendered(blocks[..|blocks| - 1]) + (if m != "" then [m] else [])
  }

  /** `convertBlocksToMarkdown`: the non-empty renderings separated by blank lines. */
  function BlocksMarkdown(blocks: seq<Block>): string
    decreases blocks, 1
  {
    Join(Rendered(blocks), "\n\n")
  }

  lemma {:induction false} RenderedNonEmpty(blocks: seq<Block>)
    ensures forall i :: 0 <= i < |Rendered(blocks)| ==> Rendered(blocks)[i] != ""
  {
    if blocks != [] {
      RenderedNonEmpty(blocks[..|blocks| - 1]);
    }
  }

  lemma {:induction false} JoinEmptyIff(parts: seq<string>, sep: string)
    requires forall i :: 0 <= i < |parts| ==> parts[i] != ""
    ensures Join(parts, sep) == "" <==> parts == []
  {
    if |parts| > 1 {
      assert |Join(parts, sep)| >= |parts[0]|;
    }
  }

  lemma {:induction false} RenderedEmptyIff(blocks: seq<Block>)
    ensures Rendered(blocks) == [] <==> forall i :: 0 <= i < |blocks| ==> BlockMarkdown(blocks[i]) == ""
  {
    if blocks != [] {
      var init, m := blocks[..|blocks| - 1], BlockMarkdown(blocks[|blocks| - 1]);
      RenderedEmptyIff(init);
      assert Rendered(blocks) == Rendered(init) + (if m != "" then [m] else []);
      if Rendered(blocks) == [] {
        assert |Rendered(init) + (if m != "" then [m] else [])| == 0;
        assert m == "" && Rendered(init) == [];
        forall i | 0 <= i < |blocks| ensures BlockMarkdown(blocks[i]) == "" {
          if i < |init| {
            assert blocks[i] == init[i];
          } else {
            assert i == |blocks| - 1;
          }
        }
      }
      if forall i :: 0 <= i < |blocks| ==> BlockMarkdown(blocks[i]) == "" {
        forall i | 0 <= i < |init| ensures BlockMarkdown(init[i]) == "" {
          assert init[i] == blocks[i];
        }
      }
    }
  }

  /** A block renders as nothing exactly when it has no content of its own and no rendered
      children; otherwise its rendering starts with its own content and ends with the indented
      children. */
  lemma BlockMarkdownShape(b: Block)
    ensures var r, content, nested := BlockMarkdown(b), OwnContent(b), BlocksMarkdown(b.children);
      && (r == "" <==> content == "" && nested == "")
      && StartsWith(r, content)
      && (nested != "" ==> EndsWith(r, Indent(nested)))
  {
    var content, nested := OwnContent(b), BlocksMarkdown(b.children);
    if nested != "" {
      IndentLines(nested);
    }
    if nested != "" && content != "" {
      var r := content + "\n" + Indent(nested);
      assert r[..|content|] == content;
      assert r[|r| - |Indent(nested)|..] == Indent(nested);
    }
  }

  /** A list of blocks renders as nothing exactly when every block renders as nothing. */
  lemma BlocksEmptyIff(blocks: seq<Block>)
    ensures BlocksMarkdown(blocks) == "" <==> forall i :: 0 <= i < |blocks| ==> BlockMarkdown(blocks[i]) == ""
  {
    RenderedNonEmpty(blocks);
    JoinEmptyIff(Rendered(blocks), "\n\n");
    RenderedEmptyIff(blocks);
  }

  /** Empty renderings leave no blank lines behind: appending a block that renders as nothing
      leaves the text unchanged, and appending one that renders as `m` adds `m` after a blank
      line (or starts the text). */
  lemma BlocksMarkdownAppend(blocks: seq<Block>, b: Block)
    ensures var before, m := BlocksMarkdown(blocks), BlockMarkdown(b);
      BlocksMarkdown(blocks + [b])
        == if m == "" then before else if before == "" then m else before + "\n\n" + m
  {
    var rs := Rendered(blocks);
    var m := BlockMarkdown(b);
    assert (blocks + [b])[..|blocks|] == blocks;
    assert Rendered(blocks + [b]) == rs + (if m != "" then [m] else []);
    if m != "" {
      JoinAppendOne(rs, m, "\n\n");
      RenderedNonEmpty(blocks);
      JoinEmptyIff(rs, "\n\n");
    } else {
      assert rs + [] == rs;
    }
  }

  /** `convertBlockToMarkdown` with the children already fetched. */
  method ConvertBlock(b: Block) returns (markdown: string)
    ensures markdown == BlockMarkdown(b)
    decreases b, 1
  {
    var nestedContent := ConvertBlocks(b.children);
    var content := OwnContent(b);
    if nestedContent != "" {
      var indentedNested := Indent(nestedContent);
      markdown := if content != "" then content + "\n" + indentedNested else indentedNested;
    } else {
      markdown := content;
    }
  }

  /** `convertBlocksToMarkdown`: collects the non-empty renderings, then joins them. */
  method ConvertBlocks(blocks: seq<Block>) returns (markdown: string)
    ensures markdown == BlocksMarkdown(blocks)
    decreases blocks, 1
  {
    var parts: seq<string> := [];
    for i := 0 to |blocks|
      invariant parts == Rendered(blocks[..i])
    {
      var blockMarkdown := ConvertBlock(blocks[i]);
      assert blocks[..i + 1][..i] == blocks[..i];
      if blockMarkdown != "" {
        parts := parts + [blockMarkdown];
      }
    }
    assert blocks[..|blocks|] == blocks;
    markdown := Join(parts, "\n\n");
  }

  // ---------------------------------------------------------------- the page title

  predicate HasTitle(p: Property) {
    p.value.TitleValue? && p.value.title != []
  }

  /** The position of the first property that is a non-empty title. */
  function FirstTitleIndex(props: seq<Property>): (r: Option<nat>)
    ensures r.Some? ==> r.value < |props| && HasTitle(props[r.value])
    ensures r.Some? ==> forall j :: 0 <= j < r.value ==> !HasTitle(props[j])
    ensures r.None? ==> forall j :: 0 <= j < |props| ==> !HasTitle(props[j])
  {
    if props == [] then None
    else if HasTitle(props[0]) then Some(0)
    else match FirstTitleIndex(props[1..])
      case None => None
      case Some(k) => Some(k + 1)
  }

  /** The title the script puts in the document. */
  function PageTitle(props: seq<Property>): string {
    match FirstTitleIndex(props)
    case None => "Untitled"
    case Some(k) => Notion.PlainText(props[k].value.title)
  }

  /** `extractPageTitle`: the first property that is a non-empty title gives the concatenated
      text of its fragments; with none, `Untitled`. */
  method ExtractPageTitle(props: seq<Property>) returns (title: string)
    ensures title == PageTitle(props)
    ensures (forall j :: 0 <= j < |props| ==> !HasTitle(props[j])) ==> title == "Untitled"
  {
    for i := 0 to |props|
      invariant forall j :: 0 <= j < i ==> !HasTitle(props[j])
    {
      if HasTitle(props[i]) {
        title := Notion.PlainText(props[i].value.title);
        FirstTitleIndexIs(props, i);
        return;
      }
    }
    title := "Untitled";
  }

  lemma FirstTitleIndexIs(props: seq<Property>, i: nat)
    requires i < |props| && HasTitle(props[i])
    requires forall j :: 0 <= j < i ==> !HasTitle(props[j])
    ensures FirstTitleIndex(props) == Some(i)
  {
    var r := FirstTitleIndex(props);
    assert r.Some?;
    assert !(r.value < i) && !(i < r.value);
  }

  // ---------------------------------------------------------------- the document

  /** The lines of the `createMarkdownDocument` template before the content: the front matter,
      a blank line, the title as a heading and a blank line. */
  function Header(id: string, title: string, created: string, lastEdited: string): seq<string> {
    ["---", "id: " + id, "title: \"" + title + "\"", "created: " + created, "lastEdited: " + lastEdited,
     "---", "", "# " + title, ""]
  }

  /** `createMarkdownDocument`: the template's lines, the content and a final line break. */
  function MarkdownDocument(id: string, title: string, created: string, lastEdited: string, content: string): string {
    Lines(Header(id, title, created, lastEdited)) + content + "\n"
  }

  /** When the metadata holds no line breaks, the document's lines are the front matter, a
      blank line, the heading, a blank line, the content's own lines and a final empty line. */
  lemma DocumentLines(id: string, title: string, created: string, lastEdited: string, content: string)
    requires '\n' !in id && '\n' !in title && '\n' !in created && '\n' !in lastEdited
    ensures Split(MarkdownDocument(id, title, created, lastEdited, content), '\n')
         == Header(id, title, created, lastEdited) + Split(content, '\n') + [""]
  {
    var header := Header(id, title, created, lastEdited);
    assert forall i :: 0 <= i < |header| ==> '\n' !in header[i] by {
      assert '\n' !in "title: \"" + title + "\"";
    }
    assert MarkdownDocument(id, title, created, lastEdited, content) == Lines(header) + (content + "\n");
    SplitLines(header, content + "\n");
    SplitTrailingSep(content, '\n');
  }
}
