/** The `child_database` transformer (packages/mcp/src/lib/notion-database-transformer.ts): an
    inline database rendered as an XML-like listing of its schema and its first query rows.
    The retrieve and query calls are one input, `fetched`: their results, or the failure of
    either. */
module DatabaseXml {
  import opened Wrappers
  import opened Strings
  import opened NotionTypes
  import opened Notion

  // ---------------------------------------------------------------- lines of the listing

  function OpenTag(id: string, title: string): string {
    "<database id=\"" + id + "\" title=\"" + title + "\">"
  }

  function PropertyLine(p: SchemaProperty): string {
    "    <property name=\"" + p.name + "\" type=\"" + p.typeName + "\" />"
  }

  function RowOpen(row: Page, index: nat): string {
    "    <row id=\"" + row.id + "\" index=\"" + NatToString(index) + "\">"
  }

  const RowClose := "    </row>"

  /** The text of one cell, by the value's type: the first fragment only for title and rich
      text, the names joined by `, ` for a multi-select, `true`/`false` for a checkbox, and ""
      for an absent value. `stringify` stands for `JSON.stringify(value) || ""`, used for every
      other type. */
  function CellValue(v: PropValue, stringify: PropValue -> string): string {
    match v
    case TitleValue(spans) => FirstFragmentOr(spans, "")
    case RichTextValue(spans) => FirstFragmentOr(spans, "")
    case NumberValue(rendered) => rendered.GetOr("")
    case SelectValue(name) => name.GetOr("")
    case MultiSelectValue(names) => Join(names, ", ")
    case DateValue(start) => start.GetOr("")
    case CheckboxValue(checked) => if checked then "true" else "false"
    case _ => stringify(v)
  }

  function CellLine(p: Property, stringify: PropValue -> string): string {
    "      <cell property=\"" + p.name + "\">" + CellValue(p.value, stringify) + "</cell>"
  }

  function PropertyLines(schema: seq<SchemaProperty>): seq<string> {
    if schema == [] then [] else PropertyLines(schema[..|schema| - 1]) + [PropertyLine(schema[|schema| - 1])]
  }

  function CellLines(props: seq<Property>, stringify: PropValue -> string): seq<string> {
    if props == [] then [] else CellLines(props[..|props| - 1], stringify) + [CellLine(props[|props| - 1], stringify)]
  }

  /** One row: its opening tag with its 0-based position, a cell per property, its closing tag. */
  function RowBlock(row: Page, index: nat, stringify: PropValue -> string): seq<string> {
    [RowOpen(row, index)] + CellLines(row.properties, stringify) + [RowClose]
  }

  function RowLines(rows: seq<Page>, stringify: PropValue -> string): seq<string> {
    if rows == [] then []
    else RowLines(rows[..|rows| - 1], stringify) + RowBlock(rows[|rows| - 1], |rows| - 1, stringify)
  }

  /** The title shown: the first fragment of the database title, `Untitled Database` when it
      is missing or empty. */
  function DatabaseTitle(database: Database): string {
    FirstFragmentOr(database.title, "Untitled Database")
  }

  /** Every line of a successful listing but the last, `</database>`. */
  function XmlLines(id: string, database: Database, rows: seq<Page>, stringify: PropValue -> string): seq<string> {
    [OpenTag(id, DatabaseTitle(database)), "  <properties>"] + PropertyLines(database.schema)
      + ["  </properties>", "  <rows>"] + RowLines(rows, stringify) + ["  </rows>"]
  }

  function ErrorXml(id: string): string {
    "<database id=\"" + id + "\" error=\"Failed to render database\" />"
  }

  /** The transformer's result for the database block `id`. */
  function DatabaseXml(id: string, fetched: Result<(Database, seq<Page>), string>, stringify: PropValue -> string): string {
    match fetched
    case Failure(_) => ErrorXml(id)
    case Success((database, rows)) => Lines(XmlLines(id, database, rows, stringify)) + "</database>"
  }

  // ---------------------------------------------------------------- the transformer

  lemma LinesSnoc(lines: seq<string>, line: string)
    ensures Lines(lines + [line]) == Lines(lines) + (line + "\n")
  {
    LinesAppend(lines, [line]);
  }

  /** One call of the row callback: the row's lines appended to the listing so far. */
  method RenderRow(xml: string, ghost lines: seq<string>, row: Page, index: nat, stringify: PropValue -> string)
    returns (out: string)
    requires xml == Lines(lines)
    ensures out == Lines(lines + RowBlock(row, index, stringify))
  {
    ghost var written := lines + [RowOpen(row, index)];
    LinesSnoc(lines, RowOpen(row, index));
    out := xml + (RowOpen(row, index) + "\n");
    ghost var current := written;
    var props := row.properties;
    for c := 0 to |props|
      invariant current == written + CellLines(props[..c], stringify)
      invariant out == Lines(current)
    {
      CellLinesSnoc(props, c, stringify);
      SeqAssoc(written, CellLines(props[..c], stringify), [CellLine(props[c], stringify)]);
      LinesSnoc(current, CellLine(props[c], stringify));
      out := out + (CellLine(props[c], stringify) + "\n");
      current := current + [CellLine(props[c], stringify)];
    }
    assert props[..|props|] == props;
    LinesSnoc(current, RowClose);
    out := out + (RowClose + "\n");
    SeqAssoc(lines, [RowOpen(row, index)], CellLines(props, stringify));
    SeqAssoc(lines, [RowOpen(row, index)] + CellLines(props, stringify), [RowClose]);
  }

  /** The loop over the schema: a property line each, in enumeration order. */
  method RenderProperties(xml: string, ghost lines: seq<string>, schema: seq<SchemaProperty>) returns (out: string)
    requires xml == Lines(lines)
    ensures out == Lines(lines + PropertyLines(schema))
  {
    out := xml;
    ghost var current := lines;
    for k := 0 to |schema|
      invariant current == lines + PropertyLines(schema[..k])
      invariant out == Lines(current)
    {
      PropertyLinesSnoc(schema, k);
      SeqAssoc(lines, PropertyLines(schema[..k]), [PropertyLine(schema[k])]);
      LinesSnoc(current, PropertyLine(schema[k]));
      out := out + (PropertyLine(schema[k]) + "\n");
      current := current + [PropertyLine(schema[k])];
    }
    assert schema[..|schema|] == schema;
  }

  lemma PropertyLinesSnoc(schema: seq<SchemaProperty>, k: nat)
    requires k < |schema|
    ensures PropertyLines(schema[..k + 1]) == PropertyLines(schema[..k]) + [PropertyLine(schema[k])]
  {
    assert schema[..k + 1][..k] == schema[..k];
  }

  lemma CellLinesSnoc(props: seq<Property>, c: nat, stringify: PropValue -> string)
    requires c < |props|
    ensures CellLines(props[..c + 1], stringify) == CellLines(props[..c], stringify) + [CellLine(props[c], stringify)]
  {
    assert props[..c + 1][..c] == props[..c];
  }

  lemma RowLinesSnoc(rows: seq<Page>, r: nat, stringify: PropValue -> string)
    requires r < |rows|
    ensures RowLines(rows[..r + 1], stringify) == RowLines(rows[..r], stringify) + RowBlock(rows[r], r, stringify)
  {
    assert rows[..r + 1][..r] == rows[..r];
  }

  lemma SeqAssoc<T>(a: seq<T>, b: seq<T>, c: seq<T>)
    ensures a + (b + c) == (a + b) + c
  {
  }

  /** The loop over the query rows, each numbered by its position. */
  method RenderRows(xml: string, ghost lines: seq<string>, rows: seq<Page>, stringify: PropValue -> string) returns (out: string)
    requires xml == Lines(lines)
    ensures out == Lines(lines + RowLines(rows, stringify))
  {
    out := xml;
    ghost var current := lines;
    for r := 0 to |rows|
      invariant current == lines + RowLines(rows[..r], stringify)
      invariant out == Lines(current)
    {
      RowLinesSnoc(rows, r, stringify);
      SeqAssoc(lines, RowLines(rows[..r], stringify), RowBlock(rows[r], r, stringify));
      out := RenderRow(out, current, rows[r], r, stringify);
      current := current + RowBlock(rows[r], r, stringify);
    }
    assert rows[..|rows|] == rows;
  }

  lemma LinesPair(lines: seq<string>, a: string, b: string)
    ensures Lines(lines + [a, b]) == Lines(lines) + (a + "\n") + (b + "\n")
  {
    LinesAppend(lines, [a, b]);
    assert [a, b][1..] == [b];
    assert Lines([b]) == b + "\n";
  }

  /** The transformer body: the listing is grown line by line. */
  method RenderDatabase(id: string, fetched: Result<(Database, seq<Page>), string>, stringify: PropValue -> string)
    returns (xml: string)
    ensures xml == DatabaseXml(id, fetched, stringify)
  {
    if fetched.Failure? {
      return ErrorXml(id);
    }
    var database, rows := fetched.value.0, fetched.value.1;
    var title := DatabaseTitle(database);
    ghost var lines := [OpenTag(id, title), "  <properties>"];
    LinesPair([], OpenTag(id, title), "  <properties>");
    assert [] + lines == lines;
    assert "  <properties>" + "\n" == "  <properties>\n";
    xml := OpenTag(id, title) + "\n";
    xml := xml + "  <properties>\n";
    xml := RenderProperties(xml, lines, database.schema);
    LinesPair(lines + PropertyLines(database.schema), "  </properties>", "  <rows>");
    lines := lines + PropertyLines(database.schema) + ["  </properties>", "  <rows>"];
    assert "  </properties>" + "\n" == "  </properties>\n";
    assert "  <rows>" + "\n" == "  <rows>\n";
    xml := xml + "  </properties>\n";
    xml := xml + "  <rows>\n";
    xml := RenderRows(xml, lines, rows, stringify);
    LinesSnoc(lines + RowLines(rows, stringify), "  </rows>");
    lines := lines + RowLines(rows, stringify) + ["  </rows>"];
    assert "  </rows>" + "\n" == "  </rows>\n";
    xml := xml + "  </rows>\n";
    xml := xml + "</database>";
  }

  // ---------------------------------------------------------------- what the listing says

  /** Only the first fragment of a title or rich text reaches the cell, and an absent select,
      date or number is an empty cell. */
  lemma CellValueMeaning(span: Span, rest: seq<Span>, stringify: PropValue -> string)
    requires span.plainText != ""
    ensures CellValue(TitleValue([span] + rest), stringify) == span.plainText
    ensures CellValue(RichTextValue([span] + rest), stringify) == span.plainText
    ensures CellValue(TitleValue([]), stringify) == "" && CellValue(RichTextValue([]), stringify) == ""
    ensures CellValue(SelectValue(None), stringify) == "" && CellValue(DateValue(None), stringify) == ""
    ensures CellValue(NumberValue(None), stringify) == ""
  {
  }

  /** A multi-select cell lists the option names separated by a comma and a space. */
  lemma MultiSelectCell(a: string, b: string, stringify: PropValue -> string)
    ensures CellValue(MultiSelectValue([a, b]), stringify) == a + ", " + b
  {
    assert [a, b][1..] == [b];
    assert Join([b], ", ") == b;
  }

  lemma {:induction false} PropertyLinesShape(schema: seq<SchemaProperty>)
    ensures |PropertyLines(schema)| == |schema|
    ensures forall k :: 0 <= k < |schema| ==> PropertyLines(schema)[k] == PropertyLine(schema[k])
  {
    if schema != [] {
      PropertyLinesShape(schema[..|schema| - 1]);
    }
  }

  lemma {:induction false} CellLinesShape(props: seq<Property>, stringify: PropValue -> string)
    ensures |CellLines(props, stringify)| == |props|
    ensures forall j :: 0 <= j < |props| ==> CellLines(props, stringify)[j] == CellLine(props[j], stringify)
  {
    if props != [] {
      CellLinesShape(props[..|props| - 1], stringify);
    }
  }

  /** A row is its opening line, exactly one cell line per property of the row, in order, and
      its closing line. */
  lemma RowBlockShape(row: Page, index: nat, stringify: PropValue -> string)
    ensures var block, props := RowBlock(row, index, stringify), row.properties;
      && |block| == |props| + 2
      && block[0] == RowOpen(row, index)
      && block[|block| - 1] == RowClose
      && forall j :: 0 <= j < |props| ==> block[j + 1] == CellLine(props[j], stringify)
  {
    CellLinesShape(row.properties, stringify);
  }

  /** The lines that open a row. */
  predicate IsRowOpening(line: string) {
    |line| >= 9 && line[..9] == "    <row "
  }

  function Openings(lines: seq<string>): seq<string> {
    if lines == [] then []
    else Openings(lines[..|lines| - 1]) + (if IsRowOpening(lines[|lines| - 1]) then [lines[|lines| - 1]] else [])
  }

  /** The opening line of each row, numbered by position. */
  function RowHeads(rows: seq<Page>): (heads: seq<string>)
    ensures |heads| == |rows|
  {
    if rows == [] then [] else RowHeads(rows[..|rows| - 1]) + [RowOpen(rows[|rows| - 1], |rows| - 1)]
  }

  lemma {:induction false} RowHeadsShape(rows: seq<Page>)
    ensures forall k :: 0 <= k < |rows| ==> RowHeads(rows)[k] == RowOpen(rows[k], k)
  {
    if rows != [] {
      RowHeadsShape(rows[..|rows| - 1]);
    }
  }

  lemma {:induction false} OpeningsAppend(a: seq<string>, b: seq<string>)
    ensures Openings(a + b) == Openings(a) + Openings(b)
  {
    if b != [] {
      OpeningsAppend(a, b[..|b| - 1]);
      assert (a + b)[..|a + b| - 1] == a + b[..|b| - 1];
    } else {
      assert a + b == a;
    }
  }

  lemma {:induction false} NoOpeningAmongCells(props: seq<Property>, stringify: PropValue -> string)
    ensures Openings(CellLines(props, stringify)) == []
  {
    if props != [] {
      NoOpeningAmongCells(props[..|props| - 1], stringify);
      var line := CellLine(props[|props| - 1], stringify);
      assert !IsRowOpening(line) by {
        CellLineIndent(props[|props| - 1], stringify);
        assert "    <row "[6] == 'o';
      }
      OpeningsOne(line);
      OpeningsAppend(CellLines(props[..|props| - 1], stringify), [line]);
    }
  }

  lemma OpeningsOne(line: string)
    ensures Openings([line]) == if IsRowOpening(line) then [line] else []
  {
    assert [line][..0] == [];
  }

  lemma CellLineIndent(p: Property, stringify: PropValue -> string)
    ensures |CellLine(p, stringify)| > 9 && CellLine(p, stringify)[6] == '<'
  {
  }

  lemma RowBlockOpenings(row: Page, index: nat, stringify: PropValue -> string)
    ensures Openings(RowBlock(row, index, stringify)) == [RowOpen(row, index)]
  {
    var open := RowOpen(row, index);
    assert open[..9] == "    <row ";
    assert Openings([open]) == [open];
    assert RowClose[..9][5] == '/' && "    <row "[5] == 'r';
    assert Openings([RowClose]) == [];
    NoOpeningAmongCells(row.properties, stringify);
    OpeningsAppend([open], CellLines(row.properties, stringify));
    OpeningsAppend([open] + CellLines(row.properties, stringify), [RowClose]);
  }

  /** There is one row opening per query result, in result order, each carrying the result's
      id and its 0-based position. */
  lemma {:induction false} RowsOpenedInOrder(rows: seq<Page>, stringify: PropValue -> string)
    ensures Openings(RowLines(rows, stringify)) == RowHeads(rows)
  {
    if rows != [] {
      var n := |rows| - 1;
      RowsOpenedInOrder(rows[..n], stringify);
      OpeningsAppend(RowLines(rows[..n], stringify), RowBlock(rows[n], n, stringify));
      RowBlockOpenings(rows[n], n, stringify);
    }
  }

  /** A successful listing opens with the database tag, the title placed verbatim, and closes
      with `</database>`; it never equals the error output. */
  lemma ListingFrame(id: string, database: Database, rows: seq<Page>, stringify: PropValue -> string)
    ensures var xml := DatabaseXml(id, Success((database, rows)), stringify);
      && StartsWith(xml, "<database id=\"" + id + "\" title=\"" + DatabaseTitle(database) + "\">\n")
      && EndsWith(xml, "</database>")
      && xml != ErrorXml(id)
  {
    var lines := XmlLines(id, database, rows, stringify);
    var xml := Lines(lines) + "</database>";
    var head := OpenTag(id, DatabaseTitle(database));
    LinesAppend([head], lines[1..]);
    HeadTail(lines);
    assert Lines([head]) == head + "\n";
    assert xml[|Lines(lines)|..] == "</database>";
    assert |xml| == |Lines(lines)| + 11;
    assert xml[|xml| - 2] == "</database>"[9] == 'e';
    var err := ErrorXml(id);
    assert err[|err| - 2] == '/';
  }

  lemma HeadTail<T>(s: seq<T>)
    requires s != []
    ensures [s[0]] + s[1..] == s
  {
  }

  /** The title is the database's first title fragment, and `Untitled Database` when that is
      missing or empty. */
  lemma DatabaseTitleMeaning(database: Database)
    ensures database.title == [] || database.title[0].plainText == "" ==> DatabaseTitle(database) == "Untitled Database"
    ensures database.title != [] && database.title[0].plainText != "" ==> DatabaseTitle(database) == database.title[0].plainText
  {
  }

  /** When no name, id, title or value holds a line break, the listing's lines are exactly the
      listed lines followed by `</database>`. */
  lemma ListingLines(id: string, database: Database, rows: seq<Page>, stringify: PropValue -> string)
    requires forall i :: 0 <= i < |XmlLines(id, database, rows, stringify)| ==> '\n' !in XmlLines(id, database, rows, stringify)[i]
    ensures Split(DatabaseXml(id, Success((database, rows)), stringify), '\n')
         == XmlLines(id, database, rows, stringify) + ["</database>"]
  {
    SplitLines(XmlLines(id, database, rows, stringify), "</database>");
    SplitWithout("</database>", '\n');
  }
}
