/** Page records of the page-fetching script (scripts/fetch_notion_pages.ts): the flat record
    kept for each page, and the result filters applied to search and database-query pages. */
module PageRecords {
  import opened Wrappers
  import opened NotionTypes
  import opened Notion

  /** The record `PageDataSchema` describes. */
  datatype PageData = PageData(
    id: string,
    title: string,
    url: string,
    archived: bool,
    parentId: Option<string>,
    createdAt: string,
    updatedAt: string)

  /** The title read from the property whose key is literally `title`: its first fragment when
      it is a title property with at least one fragment (an empty fragment included), otherwise
      `Untitled`. */
  function PageTitle(props: seq<Property>): (title: string)
  {
    match PropertyNamed(props, "title")
    case Some(TitleValue(spans)) => if |spans| > 0 then spans[0].plainText else "Untitled"
    case _ => "Untitled"
  }

  /** `extractPageData`. A page without a `parent` fails: the source reads `page.parent.type`
      unguarded and throws. Otherwise the schema's `parse` accepts every record built here from
      fragments that carry `plain_text`. */
  function ExtractPageData(page: Page): (r: Result<PageData, string>)
    ensures r.Failure? <==> page.parent.NoParent?
    ensures r.Success? ==> var d := r.value;
      && d.id == page.id && d.url == page.url && d.archived == page.archived
      && d.createdAt == page.createdTime && d.updatedAt == page.lastEditedTime
      && (d.parentId.Some? <==> page.parent.PageParent?)
      && (d.parentId.Some? ==> d.parentId.value == page.parent.pageId)
  {
    if page.parent.NoParent? then Failure(MissingParentError)
    else
      var parentId := if page.parent.PageParent? then Some(page.parent.pageId) else None;
      Success(PageData(page.id, PageTitle(page.properties), page.url, page.archived, parentId,
                       page.createdTime, page.lastEditedTime))
  }

  /** The error the runtime raises when `page.parent` is absent. */
  const MissingParentError := "Cannot read properties of undefined (reading 'type')"

  lemma {:induction false} PropertyNamedFound(props: seq<Property>, name: string)
    ensures PropertyNamed(props, name).Some? <==> exists i :: 0 <= i < |props| && props[i].name == name
    ensures PropertyNamed(props, name).Some? ==>
      exists i :: 0 <= i < |props| && props[i].name == name && props[i].value == PropertyNamed(props, name).value
  {
    if props != [] && props[0].name != name {
      PropertyNamedFound(props[1..], name);
      if exists i :: 0 <= i < |props| && props[i].name == name {
        var i :| 0 <= i < |props| && props[i].name == name;
        assert props[1..][i - 1] == props[i];
      }
      if PropertyNamed(props, name).Some? {
        var i :| 0 <= i < |props[1..]| && props[1..][i].name == name && props[1..][i].value == PropertyNamed(props, name).value;
        assert props[i + 1] == props[1..][i];
      }
    }
  }

  /** In a property bag (no key twice), the title is the first fragment of the `title` entry
      exactly when that entry is a title property with a fragment; otherwise it is `Untitled`. */
  lemma PageTitleMeaning(props: seq<Property>, i: nat)
    requires DistinctNames(props)
    requires i < |props| && props[i].name == "title"
    ensures props[i].value.TitleValue? && |props[i].value.title| > 0 ==> PageTitle(props) == props[i].value.title[0].plainText
    ensures !(props[i].value.TitleValue? && |props[i].value.title| > 0) ==> PageTitle(props) == "Untitled"
  {
    PropertyNamedFound(props, "title");
    var j :| 0 <= j < |props| && props[j].name == "title" && props[j].value == PropertyNamed(props, "title").value;
    assert i == j;
  }

  /** Without a `title` key the title is `Untitled`. */
  lemma PageTitleMissing(props: seq<Property>)
    requires forall i :: 0 <= i < |props| ==> props[i].name != "title"
    ensures PageTitle(props) == "Untitled"
  {
    PropertyNamedFound(props, "title");
  }

  /** A database row whose title column is named `Name` gets `Untitled` here, while the
      indexer's title (the first title-typed property) is the row's text; and an empty first
      fragment stays empty here, where the indexer falls back to `untitled`. */
  lemma TitleReadersDiffer(span: Span)
    requires span.plainText == "Row"
    ensures var page := Page("p", DatabaseParent("d"), [Property("Name", TitleValue([span]))], "u", false, "c", "e");
      ExtractPageData(page).Success? && ExtractPageData(page).value.title == "Untitled" && ExtractTitle(PageItem(page)) == "Row"
    ensures var empty := span.(plainText := "");
      var page := Page("p", WorkspaceParent, [Property("title", TitleValue([empty]))], "u", false, "c", "e");
      ExtractPageData(page).Success? && ExtractPageData(page).value.title == "" && ExtractTitle(PageItem(page)) == "untitled"
  {
    assert "Name" != "title" by { assert "Name"[0] != "title"[0]; }
    var named := [Property("Name", TitleValue([span]))];
    assert FirstTitleProperty(named) == Some([span]);
    assert PropertyNamed(named, "title") == PropertyNamed(named[1..], "title") == None;
    var empty := span.(plainText := "");
    var props := [Property("title", TitleValue([empty]))];
    assert FirstTitleProperty(props) == Some([empty]);
  }

  // ---------------------------------------------------------------- result filters

  /** The search filter: a page whose parent is not a database (a result without a parent
      passes). */
  predicate IsStandalonePage(result: Item) {
    result.PageItem? && !result.page.parent.DatabaseParent?
  }

  /** The pages one search response contributes, in response order. */
  function SearchPages(results: seq<Item>): (pages: seq<Page>)
    ensures |pages| <= |results|
  {
    if results == [] then []
    else
      var last := results[|results| - 1];
      SearchPages(results[..|results| - 1]) + (if IsStandalonePage(last) then [last.page] else [])
  }

  /** The database-query filter: every page result. */
  function RowPages(results: seq<Item>): (pages: seq<Page>)
    ensures |pages| <= |results|
  {
    if results == [] then []
    else
      var last := results[|results| - 1];
      RowPages(results[..|results| - 1]) + (if last.PageItem? then [last.page] else [])
  }

  /** The search filter lets a result without a parent through, and extracting its record then
      fails, as the source's main loop does for such a page. */
  lemma ParentlessPageFails(page: Page)
    requires page.parent.NoParent?
    ensures page in SearchPages([PageItem(page)])
    ensures ExtractPageData(page) == Failure(MissingParentError)
  {
    assert [PageItem(page)][..0] == [];
  }

  /** A page is kept by the search filter exactly when it is a result and is not under a
      database. */
  lemma {:induction false} SearchPagesMembership(results: seq<Item>, page: Page)
    ensures page in SearchPages(results) <==> PageItem(page) in results && !page.parent.DatabaseParent?
  {
    if results != [] {
      var init := results[..|results| - 1];
      SearchPagesMembership(init, page);
      assert results == init + [results[|results| - 1]];
    }
  }

  /** A page is kept by the row filter exactly when it is a result. */
  lemma {:induction false} RowPagesMembership(results: seq<Item>, page: Page)
    ensures page in RowPages(results) <==> PageItem(page) in results
  {
    if results != [] {
      var init := results[..|results| - 1];
      RowPagesMembership(init, page);
      assert results == init + [results[|results| - 1]];
    }
  }

  /** Filtering response by response and pushing the kept pages equals filtering all results
      at once. */
  lemma {:induction false} SearchPagesAppend(a: seq<Item>, b: seq<Item>)
    ensures SearchPages(a + b) == SearchPages(a) + SearchPages(b)
  {
    if b != [] {
      SearchPagesAppend(a, b[..|b| - 1]);
      assert (a + b)[..|a + b| - 1] == a + b[..|b| - 1];
    } else {
      assert a + b == a;
    }
  }

  lemma {:induction false} RowPagesAppend(a: seq<Item>, b: seq<Item>)
    ensures RowPages(a + b) == RowPages(a) + RowPages(b)
  {
    if b != [] {
      RowPagesAppend(a, b[..|b| - 1]);
      assert (a + b)[..|a + b| - 1] == a + b[..|b| - 1];
    } else {
      assert a + b == a;
    }
  }
}
