/** Record shaping of the indexer (packages/gwanli-core/src/lib/notion.ts): titles, parents,
    the page partition, property flattening, database preview tables and page markdown. */
module Notion {
  import opened Wrappers
  import opened Strings
  import opened NotionTypes

  // ---------------------------------------------------------------- titles and parents

  /** The concatenated `plain_text` of the fragments. */
  function PlainText(spans: seq<Span>): (s: string)
    ensures spans == [] ==> s == ""
  {
    if spans == [] then "" else PlainText(spans[..|spans| - 1]) + spans[|spans| - 1].plainText
  }

  /** Joining distributes over concatenation of fragment lists, and one fragment gives its own
      text: the result is every fragment's text, in order, with no separator. */
  lemma {:induction false} PlainTextConcat(a: seq<Span>, b: seq<Span>)
    ensures PlainText(a + b) == PlainText(a) + PlainText(b)
    ensures |b| == 1 ==> PlainText(b) == b[0].plainText
    decreases |b|
  {
    if b == [] {
      assert a + b == a;
    } else {
      var b' := b[..|b| - 1];
      assert (a + b)[..|a + b| - 1] == a + b';
      PlainTextConcat(a, b');
      if |b| == 1 {
        assert b' == [];
      }
    }
  }

  /** The fragments of the first property whose type is `title`, if there is one. */
  function FirstTitleProperty(props: seq<Property>): Option<seq<Span>> {
    if props == [] then None
    else if props[0].value.TitleValue? then Some(props[0].value.title)
    else FirstTitleProperty(props[1..])
  }

  /** `title?.[0]?.plain_text || fallback`. */
  function FirstFragmentOr(spans: seq<Span>, fallback: string): string {
    if spans != [] && spans[0].plainText != "" then spans[0].plainText else fallback
  }

  /** `extractTitle`: a database's own title, or the page's first title-typed property;
      the first fragment only, "untitled" when that is absent or empty. */
  function ExtractTitle(item: Item): (title: string)
    ensures title != ""
  {
    match item
    case DatabaseItem(d) => FirstFragmentOr(d.title, "untitled")
    case PageItem(p) =>
      match FirstTitleProperty(p.properties)
      case None => "untitled"
      case Some(spans) => FirstFragmentOr(spans, "untitled")
  }

  /** A database's title is its first fragment; a page's title is the first fragment of its
      FIRST title-typed property; an absent or empty fragment, or no such property, gives
      "untitled". */
  lemma ExtractTitleCases(item: Item)
    ensures item.DatabaseItem? ==> var t := item.database.title;
      ExtractTitle(item) == (if t != [] && t[0].plainText != "" then t[0].plainText else "untitled")
    ensures item.PageItem? && (forall i :: 0 <= i < |item.page.properties| ==> !item.page.properties[i].value.TitleValue?) ==>
      ExtractTitle(item) == "untitled"
    ensures item.PageItem? ==> var props := item.page.properties;
      forall i :: (0 <= i < |props| && props[i].value.TitleValue? &&
                   (forall j :: 0 <= j < i ==> !props[j].value.TitleValue?)) ==>
        var t := props[i].value.title;
        ExtractTitle(item) == (if t != [] && t[0].plainText != "" then t[0].plainText else "untitled")
  {
    if item.PageItem? {
      FirstTitlePropertyFound(item.page.properties);
    }
  }

  /** The lookup finds a title-typed property exactly when there is one, and then it finds
      the first. */
  lemma {:induction false} FirstTitlePropertyFound(props: seq<Property>)
    ensures FirstTitleProperty(props).None? <==> forall i :: 0 <= i < |props| ==> !props[i].value.TitleValue?
    ensures forall i :: (0 <= i < |props| && props[i].value.TitleValue? &&
                         (forall j :: 0 <= j < i ==> !props[j].value.TitleValue?)) ==>
      FirstTitleProperty(props) == Some(props[i].value.title)
    ensures FirstTitleProperty(props).Some? ==>
      exists i :: 0 <= i < |props| && props[i].value.TitleValue? && props[i].value.title == FirstTitleProperty(props).value
  {
    if props != [] {
      FirstTitlePropertyFound(props[1..]);
      if !props[0].value.TitleValue? {
        if FirstTitleProperty(props).Some? {
          var i :| 0 <= i < |props[1..]| && props[1..][i].value.TitleValue? && props[1..][i].value.title == FirstTitleProperty(props).value;
          assert props[i + 1] == props[1..][i];
        }
        forall i | 0 <= i < |props| && props[i].value.TitleValue? &&
          (forall j :: 0 <= j < i ==> !props[j].value.TitleValue?)
          ensures FirstTitleProperty(props) == Some(props[i].value.title)
        {
          assert props[1..][i - 1] == props[i];
          forall j | 0 <= j < i - 1 ensures !props[1..][j].value.TitleValue? {
            assert props[1..][j] == props[j + 1];
          }
        }
        if FirstTitleProperty(props).None? {
          forall i | 0 <= i < |props| ensures !props[i].value.TitleValue? {
            if i > 0 {
              assert props[1..][i - 1] == props[i];
            }
          }
        }
        if forall i :: 0 <= i < |props| ==> !props[i].value.TitleValue? {
          forall i | 0 <= i < |props[1..]| ensures !props[1..][i].value.TitleValue? {
            assert props[1..][i] == props[i + 1];
          }
        }
      }
    }
  }

  /** `isWorkspaceRoot`. */
  predicate IsWorkspaceRoot(item: Item) {
    item.ItemParent().WorkspaceParent?
  }

  /** `getParentId`: the parent page's id, `null` for every other kind of parent. */
  function GetParentId(item: Item): (r: Option<string>)
    ensures r.Some? <==> item.ItemParent().PageParent?
    ensures r.Some? ==> r.value == item.ItemParent().pageId
    ensures IsWorkspaceRoot(item) ==> r.None?
  {
    match item.ItemParent()
    case PageParent(id) => Some(id)
    case _ => None
  }

  /** `isDatabaseChild`: a row of a database. */
  predicate IsDatabaseChild(page: Page) {
    page.parent.DatabaseParent?
  }

  // ---------------------------------------------------------------- the page partition

  /** `allPages.filter(isDatabaseChild)`. */
  function DatabaseChildren(pages: seq<Page>): (r: seq<Page>)
    ensures forall i :: 0 <= i < |r| ==> IsDatabaseChild(r[i])
  {
    if pages == [] then []
    else DatabaseChildren(pages[..|pages| - 1]) + (if IsDatabaseChild(pages[|pages| - 1]) then [pages[|pages| - 1]] else [])
  }

  /** `allPages.filter((page) => !isDatabaseChild(page))`. */
  function RegularPages(pages: seq<Page>): (r: seq<Page>)
    ensures forall i :: 0 <= i < |r| ==> !IsDatabaseChild(r[i])
  {
    if pages == [] then []
    else RegularPages(pages[..|pages| - 1]) + (if IsDatabaseChild(pages[|pages| - 1]) then [] else [pages[|pages| - 1]])
  }

  /** The two halves of the partition split the pages: nothing lost, nothing duplicated. */
  lemma {:induction false} PartitionIsComplete(pages: seq<Page>)
    ensures |DatabaseChildren(pages)| + |RegularPages(pages)| == |pages|
    ensures multiset(DatabaseChildren(pages)) + multiset(RegularPages(pages)) == multiset(pages)
  {
    if pages != [] {
      var init, last := pages[..|pages| - 1], pages[|pages| - 1];
      PartitionIsComplete(init);
      var x: seq<Page> := if IsDatabaseChild(last) then [last] else [];
      var y: seq<Page> := if IsDatabaseChild(last) then [] else [last];
      assert DatabaseChildren(pages) == DatabaseChildren(init) + x;
      assert RegularPages(pages) == RegularPages(init) + y;
      InitLast(pages);
      PartitionStep(DatabaseChildren(init), RegularPages(init), init, x, y, last);
    }
  }

  lemma InitLast<T>(s: seq<T>)
    requires s != []
    ensures s == s[..|s| - 1] + [s[|s| - 1]]
  {
  }

  /** One more element, sent to one side of a partition, keeps it a partition. */
  lemma PartitionStep<T>(a: seq<T>, b: seq<T>, init: seq<T>, x: seq<T>, y: seq<T>, last: T)
    requires |a| + |b| == |init| && multiset(a) + multiset(b) == multiset(init)
    requires (x == [last] && y == []) || (x == [] && y == [last])
    ensures |a + x| + |b + y| == |init + [last]|
    ensures multiset(a + x) + multiset(b + y) == multiset(init + [last])
  {
  }

  // ---------------------------------------------------------------- extract_properties

  /** The string `extract_properties` stores for one property, or `None` when it stores nothing
      (a title or rich_text property with no fragments). Unknown types store "". */
  function PropertyText(v: PropValue): Option<string> {
    match v
    case TitleValue(spans) => if spans != [] then Some(spans[0].plainText) else None
    case RichTextValue(spans) => if spans != [] then Some(PlainText(spans)) else None
    case SelectValue(name) => Some(name.GetOr(""))
    case MultiSelectValue(names) => Some(Join(names, ", "))
    case DateValue(start) => Some(start.GetOr(""))
    case NumberValue(rendered) => Some(rendered.GetOr(""))
    case CheckboxValue(checked) => Some(if checked then "true" else "false")
    case UrlValue(url) => Some(url.GetOr(""))
    case EmailValue(email) => Some(email.GetOr(""))
    case PhoneNumberValue(phone) => Some(phone.GetOr(""))
    case OtherValue(_) => Some("")
  }

  /** The flattened bag, in entry order, that `extract_properties` builds. */
  function FlattenProperties(props: seq<Property>): (entries: seq<(string, string)>)
    ensures |entries| <= |props|
  {
    if props == [] then []
    else
      FlattenProperties(props[..|props| - 1]) + FlattenTail(props[|props| - 1])
  }

  /** The value stored under `key`, if any. */
  function Lookup(entries: seq<(string, string)>, key: string): Option<string> {
    if entries == [] then None
    else if entries[0].0 == key then Some(entries[0].1)
    else Lookup(entries[1..], key)
  }

  function Keys(entries: seq<(string, string)>): seq<string> {
    seq(|entries|, i requires 0 <= i < |entries| => entries[i].0)
  }

  function Names(props: seq<Property>): seq<string> {
    seq(|props|, i requires 0 <= i < |props| => props[i].name)
  }

  lemma LookupAppend(a: seq<(string, string)>, b: seq<(string, string)>, key: string)
    ensures Lookup(a + b, key) == if Lookup(a, key).Some? then Lookup(a, key) else Lookup(b, key)
  {
    if a != [] {
      assert (a + b)[0] == a[0] && (a + b)[1..] == a[1..] + b;
      LookupAppend(a[1..], b, key);
    } else {
      assert a + b == b;
    }
  }

  /** The flattened bag is the bag of the earlier properties, then the last one's entry. */
  lemma FlattenSnoc(props: seq<Property>)
    requires props != []
    ensures var last := props[|props| - 1];
      FlattenProperties(props) == FlattenProperties(props[..|props| - 1]) + FlattenTail(last)
  {
  }

  /** The entry one property contributes. */
  function FlattenTail(p: Property): seq<(string, string)> {
    match PropertyText(p.value) case Some(text) => [(p.name, text)] case None => []
  }

  lemma NamesSnoc(props: seq<Property>, k: string)
    requires props != []
    ensures k in Names(props) <==> k in Names(props[..|props| - 1]) || k == props[|props| - 1].name
  {
    var init := props[..|props| - 1];
    if k in Names(props) {
      var m :| 0 <= m < |props| && Names(props)[m] == k;
      if m < |init| {
        assert Names(init)[m] == k;
      }
    }
    if k in Names(init) {
      var m :| 0 <= m < |init| && Names(init)[m] == k;
      assert Names(props)[m] == k;
    }
    assert Names(props)[|props| - 1] == props[|props| - 1].name;
  }

  /** The flattened bag has no key that is not a property name. */
  lemma {:induction false} FlattenKeys(props: seq<Property>)
    ensures forall k :: k in Keys(FlattenProperties(props)) ==> k in Names(props)
  {
    if props != [] {
      var init, last := props[..|props| - 1], props[|props| - 1];
      FlattenKeys(init);
      FlattenSnoc(props);
      var flat, flatInit := FlattenProperties(props), FlattenProperties(init);
      forall k | k in Keys(flat) ensures k in Names(props) {
        NamesSnoc(props, k);
        var j :| 0 <= j < |flat| && Keys(flat)[j] == k;
        if j < |flatInit| {
          assert Keys(flatInit)[j] == k;
        } else {
          assert flat[j] == FlattenTail(last)[j - |flatInit|];
        }
      }
    }
  }

  /** Nothing is stored under a key that is not a property name. */
  lemma {:induction false} FlattenAbsent(props: seq<Property>, k: string)
    requires k !in Names(props)
    ensures Lookup(FlattenProperties(props), k) == None
  {
    if props != [] {
      var init, last := props[..|props| - 1], props[|props| - 1];
      NamesSnoc(props, k);
      FlattenAbsent(init, k);
      FlattenSnoc(props);
      LookupAppend(FlattenProperties(init), FlattenTail(last), k);
    }
  }

  /** In a property bag (no name twice) the flattened bag stores, under each property name,
      exactly that property's text, and nothing for a skipped title/rich_text property. */
  lemma {:induction false} FlattenLookup(props: seq<Property>, i: nat)
    requires DistinctNames(props)
    requires i < |props|
    ensures Lookup(FlattenProperties(props), props[i].name) == PropertyText(props[i].value)
  {
    var init, last := props[..|props| - 1], props[|props| - 1];
    var k := props[i].name;
    FlattenSnoc(props);
    LookupAppend(FlattenProperties(init), FlattenTail(last), k);
    if i < |props| - 1 {
      assert init[i] == props[i];
      assert DistinctNames(init) by {
        forall a, b | 0 <= a < b < |init| ensures init[a].name != init[b].name {
          assert init[a] == props[a] && init[b] == props[b];
        }
      }
      FlattenLookup(init, i);
    } else {
      assert k !in Names(init) by {
        forall j | 0 <= j < |Names(init)| ensures Names(init)[j] != k {
          assert Names(init)[j] == props[j].name;
        }
      }
      FlattenAbsent(init, k);
    }
  }

  /** `extract_properties`: fills the flattened bag entry by entry. */
  method ExtractProperties(props: seq<Property>) returns (extracted: seq<(string, string)>)
    ensures extracted == FlattenProperties(props)
  {
    extracted := [];
    var i := 0;
    while i < |props|
      invariant 0 <= i <= |props|
      invariant extracted == FlattenProperties(props[..i])
    {
      var key := props[i].name;
      match PropertyText(props[i].value) {
        case Some(text) => extracted := extracted + [(key, text)];
        case None =>
      }
      assert props[..i + 1][..i] == props[..i];
      i := i + 1;
    }
    assert props[..|props|] == props;
  }

  // ---------------------------------------------------------------- createDatabaseTable

  /** The result of `createDatabaseTable`: the empty-state text, or the heading and the table
      data handed to `markdownTable` (whose layout this model does not render). */
  datatype TableMarkdown = NoEntries(text: string) | Table(heading: string, data: seq<seq<string>>)

  /** A cell: values over 50 characters keep their first 47 and gain "...". */
  function CellText(value: string): (cell: string)
    ensures |cell| <= 50 || cell == value
    ensures |value| <= 50 ==> cell == value
    ensures |value| > 50 ==> |cell| == 50 && cell[..47] == value[..47] && cell[47..] == "..."
  {
    if |value| > 50 then value[..47] + "..." else value
  }

  /** `createDatabaseTable`. */
  function CreateDatabaseTable(title: string, headers: seq<string>, rows: seq<seq<(string, string)>>): (r: TableMarkdown)
    ensures r.NoEntries? <==> headers == [] || rows == []
    ensures r.NoEntries? ==> r.text == "## " + title + "\n\n*No entries found*"
    ensures r.Table? ==> r.heading == "## " + title + "\n\n"
    ensures r.Table? ==> |r.data| == |rows| + 1 && r.data[0] == headers
  {
    if headers == [] || rows == [] then
      NoEntries("## " + title + "\n\n*No entries found*")
    else
      Table("## " + title + "\n\n",
        [headers] + seq(|rows|, i requires 0 <= i < |rows| =>
          seq(|headers|, j requires 0 <= j < |headers| => CellText(Lookup(rows[i], headers[j]).GetOr("")))))
  }

  /** Below the header row, row `i` has one cell per header: the row's value under that
      header ("" when it has none), cut to 47 characters plus "..." when over 50. */
  lemma TableCells(title: string, headers: seq<string>, rows: seq<seq<(string, string)>>)
    requires CreateDatabaseTable(title, headers, rows).Table?
    ensures var r := CreateDatabaseTable(title, headers, rows);
      && (forall i :: 1 <= i < |r.data| ==> |r.data[i]| == |headers|)
      && forall i, j :: 1 <= i < |r.data| && 0 <= j < |headers| ==>
        |r.data[i][j]| <= 50 &&
        var value := Lookup(rows[i - 1], headers[j]).GetOr("");
        r.data[i][j] == value || (|value| > 50 && r.data[i][j] == value[..47] + "...")
  {
  }

  // ---------------------------------------------------------------- block transformers

  /** The `rows` of the `child_database` transformer: each page's flattened properties. */
  function FlattenRows(pages: seq<Page>): (rows: seq<seq<(string, string)>>)
    ensures |rows| == |pages|
    ensures forall i :: 0 <= i < |pages| ==> rows[i] == FlattenProperties(pages[i].properties)
  {
    seq(|pages|, i requires 0 <= i < |pages| => FlattenProperties(pages[i].properties))
  }

  /** The `child_database` transformer: a preview table of the first rows returned by the
      database query, or the empty-state table of the plain title when the query threw. */
  function ChildDatabaseTable(blockId: string, blockTitle: string, query: Result<seq<Page>, string>): (r: TableMarkdown)
    ensures var title := if blockTitle != "" then blockTitle else "Untitled Database";
      && (query.Failure? ==> r == NoEntries("## " + title + "\n\n*No entries found*"))
      && (query.Success? && query.value == [] ==>
            r == NoEntries("## " + (title + " (Database Id: " + blockId + ")") + "\n\n*No entries found*"))
    ensures r.Table? ==> query.Success? && query.value != [] && r.data != [] && r.data[0] == Keys(FlattenProperties(query.value[0].properties))
  {
    var title := if blockTitle != "" then blockTitle else "Untitled Database";
    match query
    case Failure(_) => CreateDatabaseTable(title, [], [])
    case Success(pages) =>
      var rows := FlattenRows(pages);
      var headers := if rows != [] then Keys(rows[0]) else [];
      var table := CreateDatabaseTable(title + " (Database Id: " + blockId + ")", headers, rows);
      assert table.Table? ==> pages != [] && table.data[0] == Keys(FlattenProperties(pages[0].properties)) by {
        if table.Table? {
          assert rows != [] && rows[0] == FlattenProperties(pages[0].properties);
          assert table.data[0] == headers;
        }
      }
      table
  }

  /** A non-empty query result: the table is the one `CreateDatabaseTable` makes under the title
      `title (Database Id: id)`, with the first row's keys as header and each page's flattened
      properties as a row (so `TableCells` gives its cells); it is the empty-state text exactly
      when the first row has no flattened property. */
  lemma ChildDatabaseRows(blockId: string, blockTitle: string, pages: seq<Page>)
    requires pages != []
    ensures var title := (if blockTitle != "" then blockTitle else "Untitled Database") + " (Database Id: " + blockId + ")";
      ChildDatabaseTable(blockId, blockTitle, Success(pages)) ==
        CreateDatabaseTable(title, Keys(FlattenProperties(pages[0].properties)), FlattenRows(pages))
    ensures ChildDatabaseTable(blockId, blockTitle, Success(pages)).NoEntries? <==> FlattenProperties(pages[0].properties) == []
  {
    assert |Keys(FlattenProperties(pages[0].properties))| == |FlattenProperties(pages[0].properties)|;
  }

  /** The `child_page` transformer: a link to the page's slug. A page with no slug yields the
      literal target `undefined`. */
  function ChildPageLink(blockId: string, pageTitle: string, idToSlug: map<string, string>): (link: string)
  {
    var text := if pageTitle != "" then pageTitle else "Untitled Page";
    var target := if blockId in idToSlug then idToSlug[blockId] else "undefined";
    "[" + text + "](" + target + ")"
  }

  // ---------------------------------------------------------------- page assembly

  datatype ConvertedPage = ConvertedPage(
    id: string,
    markdown: string,
    title: string,
    slug: Option<string>,
    createdAt: string,
    lastUpdated: string)

  /** The value of the property named `name`. */
  function PropertyNamed(props: seq<Property>, name: string): Option<PropValue> {
    if props == [] then None
    else if props[0].name == name then Some(props[0].value)
    else PropertyNamed(props[1..], name)
  }

  /** The end of `convertPageToMarkdown`, given the markdown blocks the converter produced:
      the title is the first fragment of the property named `title` (reading it throws when
      that property is missing, not a title, or has no fragment), followed by the non-empty
      blocks separated by blank lines. */
  function AssemblePage(page: Page, blockMarkdown: seq<string>, idToSlug: map<string, string>): (r: Result<ConvertedPage, string>)
    ensures r.Success? <==>
      (PropertyNamed(page.properties, "title").Some? &&
       PropertyNamed(page.properties, "title").value.TitleValue? &&
       PropertyNamed(page.properties, "title").value.title != [])
    ensures r.Success? ==>
      && r.value.title == PropertyNamed(page.properties, "title").value.title[0].plainText
      && r.value.markdown == r.value.title + "\n\n" + Join(NonEmpty(blockMarkdown), "\n\n")
      && r.value.id == page.id
      && (r.value.slug.Some? <==> page.id in idToSlug)
      && (r.value.slug.Some? ==> r.value.slug.value == idToSlug[page.id])
      && r.value.createdAt == page.createdTime && r.value.lastUpdated == page.lastEditedTime
  {
    match PropertyNamed(page.properties, "title")
    case Some(TitleValue(spans)) =>
      if spans == [] then Failure("TypeError: Cannot read properties of undefined (reading 'plain_text')")
      else
        var title := spans[0].plainText;
        Success(ConvertedPage(
          page.id,
          title + "\n\n" + Join(NonEmpty(blockMarkdown), "\n\n"),
          title,
          if page.id in idToSlug then Some(idToSlug[page.id]) else None,
          page.createdTime,
          page.lastEditedTime))
    case _ => Failure("TypeError: Cannot read properties of undefined")
  }
}
