/** The shapes of the Notion API responses the indexing code reads, reduced to the fields it uses. */
module NotionTypes {
  import opened Wrappers

  datatype Annotations = Annotations(bold: bool, italic: bool, strikethrough: bool, code: bool)

  /** One rich-text fragment. An omitted `plain_text` is modelled as the empty string. The
      readers that fall back with `||` (to "" or to "untitled") treat the two alike. Two
      unguarded readers do not: the title read of `convertPageToMarkdown` would carry
      `undefined`, and `extractPageData` of fetch_notion_pages.ts would hand `undefined` to the
      schema, whose `parse` then throws; neither is modelled. */
  datatype Span = Span(plainText: string, annotations: Annotations, href: Option<string>)

  /** `parent` of a page or database; `NoParent` stands for a response without one. */
  datatype Parent =
    | WorkspaceParent
    | PageParent(pageId: string)
    | DatabaseParent(databaseId: string)
    | BlockParent(blockId: string)
    | NoParent

  /** A property value of a page. `None` stands for the API's `null`. A number carries its
      `toString()` rendering, which this model does not compute. */
  datatype PropValue =
    | TitleValue(title: seq<Span>)
    | RichTextValue(richText: seq<Span>)
    | SelectValue(select: Option<string>)
    | MultiSelectValue(names: seq<string>)
    | DateValue(start: Option<string>)
    | NumberValue(rendered: Option<string>)
    | CheckboxValue(checked: bool)
    | UrlValue(url: Option<string>)
    | EmailValue(email: Option<string>)
    | PhoneNumberValue(phone: Option<string>)
    | OtherValue(typeName: string)

  /** One entry of a property bag, in `Object.entries` order. */
  datatype Property = Property(name: string, value: PropValue)

  /** A property bag is a JSON object: no name occurs twice. */
  predicate DistinctNames(props: seq<Property>) {
    forall i, j :: 0 <= i < j < |props| ==> props[i].name != props[j].name
  }

  datatype Page = Page(
    id: string,
    parent: Parent,
    properties: seq<Property>,
    url: string,
    archived: bool,
    createdTime: string,
    lastEditedTime: string)

  /** One column of a database schema: its name and its type name. */
  datatype SchemaProperty = SchemaProperty(name: string, typeName: string)

  datatype Database = Database(id: string, parent: Parent, title: seq<Span>, schema: seq<SchemaProperty>)

  /** A search result: a page, or a database (the objects that carry a top-level `title`). */
  datatype Item = PageItem(page: Page) | DatabaseItem(database: Database) {
    function Id(): string {
      match this
      case PageItem(p) => p.id
      case DatabaseItem(d) => d.id
    }

    function ItemParent(): Parent {
      match this
      case PageItem(p) => p.parent
      case DatabaseItem(d) => d.parent
    }
  }

  /** The `type` tag of a block, decoded: the types the renderers handle by name, and any
      other type by its name. */
  datatype BlockType =
    | Paragraph | Heading1 | Heading2 | Heading3 | BulletedListItem | NumberedListItem
    | ToDo | Code | Quote | Divider | Unsupported(name: string)

  /** The `type` names the renderers handle by name. */
  const HandledTags: set<string> :=
    {"paragraph", "heading_1", "heading_2", "heading_3", "bulleted_list_item",
     "numbered_list_item", "to_do", "code", "quote", "divider"}

  /** The decoding of a `type` tag: a handled name gives its own case, and `Unsupported`
      carries exactly the names that are not handled, unchanged. */
  function DecodeBlockType(tag: string): (t: BlockType)
    ensures t.Unsupported? <==> tag !in HandledTags
    ensures t.Unsupported? ==> t.name == tag
  {
    match tag
    case "paragraph" => Paragraph
    case "heading_1" => Heading1
    case "heading_2" => Heading2
    case "heading_3" => Heading3
    case "bulleted_list_item" => BulletedListItem
    case "numbered_list_item" => NumberedListItem
    case "to_do" => ToDo
    case "code" => Code
    case "quote" => Quote
    case "divider" => Divider
    case _ => Unsupported(tag)
  }

  /** A content block with the children already fetched; a failed fetch of the children
      behaves as no children. `blockType` is `DecodeBlockType` of the block's `type`; `richText`, `checked` and `language` are the fields of
      `block[block.type]`. */
  datatype Block = Block(blockType: BlockType, richText: seq<Span>, checked: bool, language: string, children: seq<Block>)
}
