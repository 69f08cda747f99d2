/** The SQLite task-example store (packages/mcp/src/lib/sqlite-storage.ts): the connection
    lifecycle, the full-text query built from a search string, and the padding of short
    result lists with the most recent examples. The SQL engine is not modelled: the table is
    the sequence of stored rows in insertion order, and the full-text match is a parameter
    `engine` from (query, limit) to ranked rows. */
module TaskStorage {
  import opened Wrappers
  import opened Strings

  datatype TaskExample = TaskExample(task: string, context: string, issues: string)

  /** A row of `task_examples`. */
  datatype StoredRow = StoredRow(id: string, example: TaskExample)

  datatype Metadata = Metadata(id: string, task: string, context: string, issues: string)

  datatype SearchResult = SearchResult(document: string, similarity: real, metadata: Option<Metadata>)

  /** A row the full-text engine returns, with its rank. */
  datatype RankedRow = RankedRow(row: StoredRow, rank: real)

  const NotInitialized := "Database not initialized. Call initialize() first."
  const DefaultPath := "./task-examples.db"
  /** The similarity given to every padding row. */
  const FallbackSimilarity: real := 0.1
  /** SQLite's message when an insert repeats a primary key. */
  const DuplicateId := "UNIQUE constraint failed: task_examples.id"

  predicate DistinctIds(rows: seq<StoredRow>) {
    forall i, j :: 0 <= i < j < |rows| ==> rows[i].id != rows[j].id
  }

  function Ids(rows: seq<StoredRow>): (ids: seq<string>)
    ensures |ids| == |rows|
    ensures forall i :: 0 <= i < |rows| ==> ids[i] == rows[i].id
  {
    if rows == [] then [] else Ids(rows[..|rows| - 1]) + [rows[|rows| - 1].id]
  }

  function Document(e: TaskExample): string {
    "Task: " + e.task + "\nContext: " + e.context + "\nIssues: " + e.issues
  }

  function ResultOf(row: StoredRow, similarity: real): (r: SearchResult) {
    var e := row.example;
    SearchResult(Document(e), similarity, Some(Metadata(row.id, e.task, e.context, e.issues)))
  }

  function Abs(x: real): (r: real)
    ensures r >= 0.0 && (r == x || r == -x)
  {
    if x < 0.0 then -x else x
  }

  // ---------------------------------------------------------------- the full-text query

  /** `term.replace(/"/g, '""')`. */
  function DoubleQuotes(t: string): (d: string)
    ensures |d| >= |t|
  {
    if t == [] then [] else (if t[0] == '"' then "\"\"" else [t[0]]) + DoubleQuotes(t[1..])
  }

  /** A term as an FTS5 string literal. */
  function Quote(t: string): (q: string)
    ensures |q| >= 2
  {
    "\"" + DoubleQuotes(t) + "\""
  }

  function QuoteAll(terms: seq<string>): (q: seq<string>)
    ensures |q| == |terms|
  {
    if terms == [] then [] else [Quote(terms[0])] + QuoteAll(terms[1..])
  }

  /** The query handed to `MATCH`: the words of the search string, each quoted, joined by
      ` OR `. */
  function FtsQuery(query: string): string {
    Join(QuoteAll(Words(query)), " OR ")
  }

  /** How FTS5 reads a string literal's body after its opening quote: `""` is one quote and a
      lone quote closes it. The text read and what follows the literal; `None` when the
      literal never closes. */
  function ReadLiteral(s: string): (r: Option<(string, string)>)
    ensures r.Some? ==> |r.value.1| < |s|
  {
    if s == [] then None
    else if s[0] == '"' then
      if |s| >= 2 && s[1] == '"' then
        match ReadLiteral(s[2..])
        case None => None
        case Some((t, rest)) => Some(("\"" + t, rest))
      else Some(("", s[1..]))
    else
      match ReadLiteral(s[1..])
      case None => None
      case Some((t, rest)) => Some(([s[0]] + t, rest))
  }

  /** Reads a disjunction of string literals, `"…" OR "…" OR …`, back into its terms. */
  function ParseTerms(s: string): Option<seq<string>>
    decreases |s|
  {
    if s == [] || s[0] != '"' then None
    else
      match ReadLiteral(s[1..])
      case None => None
      case Some((t, rest)) =>
        if rest == [] then Some([t])
        else if |rest| >= 4 && rest[..4] == " OR " then
          match ParseTerms(rest[4..])
          case None => None
          case Some(ts) => Some([t] + ts)
        else None
  }

  /** Un-doubling the quotes of a doubled term gives the term back, and the literal ends at
      the first lone quote. */
  lemma {:induction false} ReadLiteralDoubled(t: string, rest: string)
    requires rest == [] || rest[0] != '"'
    ensures ReadLiteral(DoubleQuotes(t) + "\"" + rest) == Some((t, rest))
  {
    var s := DoubleQuotes(t) + "\"" + rest;
    if t == [] {
      assert s == "\"" + rest;
      assert s[1..] == rest;
    } else {
      var chunk := if t[0] == '"' then "\"\"" else [t[0]];
      var tail := DoubleQuotes(t[1..]) + "\"" + rest;
      ReadLiteralDoubled(t[1..], rest);
      Assoc(chunk + DoubleQuotes(t[1..]), "\"", rest);
      Assoc(chunk, DoubleQuotes(t[1..]), "\"");
      Assoc(chunk, DoubleQuotes(t[1..]) + "\"", rest);
      assert s == chunk + tail;
      if t[0] == '"' {
        assert s[2..] == tail;
        assert "\"" + t[1..] == t;
      } else {
        assert s[1..] == tail;
        assert [t[0]] + t[1..] == t;
      }
    }
  }

  /** A quoted term reads back as itself. */
  lemma QuoteRoundTrip(t: string)
    ensures ReadLiteral(Quote(t)[1..]) == Some((t, ""))
  {
    ReadLiteralDoubled(t, "");
    assert Quote(t)[1..] == DoubleQuotes(t) + "\"" + "";
  }

  /** A quoted term followed by ` OR ` and more literals reads as the term, then the rest. */
  lemma ParseStep(t: string, rest: string)
    ensures ParseTerms(Quote(t) + " OR " + rest)
         == match ParseTerms(rest) case None => None case Some(ts) => Some([t] + ts)
  {
    var body := DoubleQuotes(t);
    var s := Quote(t) + " OR " + rest;
    var after := " OR " + rest;
    assert s[0] == '"' && s[1..] == body + "\"" + after by {
      Assoc("\"" + body, "\"", " OR ");
      Assoc("\"" + body, "\" OR ", rest);
      Assoc("\"", body, "\" OR " + rest);
      assert s == "\"" + (body + ("\" OR " + rest));
      Assoc(body, "\"", " OR " + rest);
    }
    assert ReadLiteral(s[1..]) == Some((t, after)) by {
      ReadLiteralDoubled(t, after);
    }
    assert after != [] && after[..4] == " OR " && after[4..] == rest;
  }

  lemma {:induction false} ParseQuoted(terms: seq<string>)
    requires terms != []
    ensures ParseTerms(Join(QuoteAll(terms), " OR ")) == Some(terms)
  {
    var q := QuoteAll(terms);
    if |terms| == 1 {
      QuoteRoundTrip(terms[0]);
      assert [terms[0]] == terms;
    } else {
      var rest := Join(q[1..], " OR ");
      assert ParseTerms(rest) == Some(terms[1..]) by {
        ParseQuoted(terms[1..]);
        assert q[1..] == QuoteAll(terms[1..]);
      }
      assert Join(q, " OR ") == Quote(terms[0]) + " OR " + rest;
      ParseStep(terms[0], rest);
      assert [terms[0]] + terms[1..] == terms;
    }
  }

  /** The full-text query is empty exactly when the search string is blank, and otherwise
      reads back as the words of the search string: no term can break out of its literal. */
  lemma FtsQueryRoundTrip(query: string)
    ensures FtsQuery(query) == "" <==> Trim(query) == ""
    ensures Trim(query) != "" ==> ParseTerms(FtsQuery(query)) == Some(Words(query))
  {
    WordsEmptyIffBlank(query);
    TrimEmptyIffAllSpace(query);
    var q := QuoteAll(Words(query));
    if q != [] {
      ParseQuoted(Words(query));
      assert FtsQuery(query) != "" by {
        if |q| > 1 {
          assert |Join(q, " OR ")| >= |q[0]|;
        }
      }
    }
  }

  // ---------------------------------------------------------------- results and padding

  function MatchedResults(ranked: seq<RankedRow>): (results: seq<SearchResult>)
    ensures |results| == |ranked|
  {
    if ranked == [] then []
    else
      var last := ranked[|ranked| - 1];
      MatchedResults(ranked[..|ranked| - 1]) + [ResultOf(last.row, Abs(last.rank))]
  }

  /** `r.metadata?.id`, kept when truthy. */
  function ExistingIds(results: seq<SearchResult>): seq<string> {
    if results == [] then []
    else
      var last := results[|results| - 1];
      ExistingIds(results[..|results| - 1])
        + (if last.metadata.Some? && last.metadata.value.id != "" then [last.metadata.value.id] else [])
  }

  /** `ORDER BY created_at DESC LIMIT limit` over the rows whose id is not excluded: the
      latest inserted rows first. */
  function Recent(rows: seq<StoredRow>, exclude: seq<string>, limit: int): (r: seq<StoredRow>)
    ensures |r| <= if limit < 0 then 0 else limit
  {
    if limit <= 0 || rows == [] then []
    else
      var last := rows[|rows| - 1];
      if last.id in exclude then Recent(rows[..|rows| - 1], exclude, limit)
      else [last] + Recent(rows[..|rows| - 1], exclude, limit - 1)
  }

  function FallbackResults(rows: seq<StoredRow>): (results: seq<SearchResult>)
    ensures |results| == |rows|
  {
    if rows == [] then [] else [ResultOf(rows[0], FallbackSimilarity)] + FallbackResults(rows[1..])
  }

  /** `getFallbackResults` on an open database holding `rows`. */
  function Fallback(rows: seq<StoredRow>, existing: seq<SearchResult>, n: int): seq<SearchResult> {
    var needed := n - |existing|;
    if needed <= 0 then existing
    else existing + FallbackResults(Recent(rows, ExistingIds(existing), needed))
  }

  /** `searchSimilarExamples` on an open database holding `rows`. */
  function Search(rows: seq<StoredRow>, query: string, n: int, engine: (string, int) -> seq<RankedRow>): seq<SearchResult> {
    if Trim(query) == "" then Fallback(rows, [], n)
    else
      var results := MatchedResults(engine(FtsQuery(query), n));
      if |results| < n then Fallback(rows, results, n) else results
  }

  /** `taken` is the rows at positions `pos` of `rows` (later positions were inserted later),
      newest first, none of them excluded, and every eligible row left out is older than
      every row taken. */
  predicate NewestFirst(rows: seq<StoredRow>, exclude: seq<string>, taken: seq<StoredRow>, pos: seq<int>) {
    && |pos| == |taken|
    && (forall k :: 0 <= k < |pos| ==> 0 <= pos[k] < |rows| && rows[pos[k]] == taken[k] && taken[k].id !in exclude)
    && (forall k, l :: 0 <= k < l < |pos| ==> pos[k] > pos[l])
    && (forall k, p :: 0 <= k < |pos| && 0 <= p < |rows| && rows[p].id !in exclude && p !in pos ==> p < pos[k])
  }

  lemma {:induction false} RecentMeaning(rows: seq<StoredRow>, exclude: seq<string>, limit: int)
    ensures forall k :: 0 <= k < |Recent(rows, exclude, limit)| ==>
      Recent(rows, exclude, limit)[k] in rows && Recent(rows, exclude, limit)[k].id !in exclude
    ensures |Recent(rows, exclude, limit)| < limit ==>
      forall row :: row in rows && row.id !in exclude ==> row in Recent(rows, exclude, limit)
    ensures exists pos :: NewestFirst(rows, exclude, Recent(rows, exclude, limit), pos)
  {
    var pos := RecentPositions(rows, exclude, limit);
    if limit > 0 && rows != [] {
      var init := rows[..|rows| - 1];
      RecentMeaning(init, exclude, limit);
      RecentMeaning(init, exclude, limit - 1);
      assert rows == init + [rows[|rows| - 1]];
    }
  }

  /** The positions `Recent` takes its rows from. */
  lemma {:induction false} RecentPositions(rows: seq<StoredRow>, exclude: seq<string>, limit: int) returns (pos: seq<int>)
    ensures NewestFirst(rows, exclude, Recent(rows, exclude, limit), pos)
    decreases |rows|
  {
    if limit <= 0 || rows == [] {
      pos := [];
    } else {
      var init, last := rows[..|rows| - 1], rows[|rows| - 1];
      assert rows == init + [last];
      if last.id in exclude {
        pos := RecentPositions(init, exclude, limit);
        SkipExcluded(init, last, exclude, Recent(init, exclude, limit), pos);
      } else {
        var rest := RecentPositions(init, exclude, limit - 1);
        TakeNewest(init, last, exclude, Recent(init, exclude, limit - 1), rest);
        pos := [|init|] + rest;
      }
    }
  }

  /** An excluded newest row changes nothing taken. */
  lemma SkipExcluded(init: seq<StoredRow>, last: StoredRow, exclude: seq<string>, taken: seq<StoredRow>, pos: seq<int>)
    requires NewestFirst(init, exclude, taken, pos) && last.id in exclude
    ensures NewestFirst(init + [last], exclude, taken, pos)
  {
    var rows := init + [last];
    forall k | 0 <= k < |pos| ensures rows[pos[k]] == taken[k] {
      assert rows[pos[k]] == init[pos[k]];
    }
    forall k, p | 0 <= k < |pos| && 0 <= p < |rows| && rows[p].id !in exclude && p !in pos
      ensures p < pos[k]
    {
      assert p < |init| && rows[p] == init[p];
    }
  }

  /** An eligible newest row is taken first, in front of the rows taken from the older ones. */
  lemma TakeNewest(init: seq<StoredRow>, last: StoredRow, exclude: seq<string>, taken: seq<StoredRow>, pos: seq<int>)
    requires NewestFirst(init, exclude, taken, pos) && last.id !in exclude
    ensures NewestFirst(init + [last], exclude, [last] + taken, [|init|] + pos)
  {
    var rows, pos' := init + [last], [|init|] + pos;
    forall k | 0 <= k < |pos'| ensures 0 <= pos'[k] < |rows| && rows[pos'[k]] == ([last] + taken)[k]
    {
      if k > 0 {
        assert pos'[k] == pos[k - 1] && rows[pos[k - 1]] == init[pos[k - 1]];
      }
    }
    forall k, p | 0 <= k < |pos'| && 0 <= p < |rows| && rows[p].id !in exclude && p !in pos'
      ensures p < pos'[k]
    {
      assert p != |init|;
      assert rows[p] == init[p];
      if k > 0 {
        assert pos'[k] == pos[k - 1];
        assert p !in pos;
      }
    }
  }

  lemma {:induction false} FallbackResultsMeaning(rows: seq<StoredRow>)
    ensures forall k :: 0 <= k < |rows| ==> FallbackResults(rows)[k] == ResultOf(rows[k], FallbackSimilarity)
  {
    if rows != [] {
      FallbackResultsMeaning(rows[1..]);
    }
  }

  /** Padding keeps the given results in front and gives every added entry similarity 0.1. */
  lemma PaddingSimilarity(rows: seq<StoredRow>, existing: seq<SearchResult>, n: int)
    ensures var r := Fallback(rows, existing, n);
      && |r| >= |existing| && r[..|existing|] == existing
      && forall k :: |existing| <= k < |r| ==> r[k].similarity == FallbackSimilarity
  {
    var r := Fallback(rows, existing, n);
    if |existing| < n {
      var added := Recent(rows, ExistingIds(existing), n - |existing|);
      FallbackResultsMeaning(added);
      forall k | |existing| <= k < |r| ensures r[k].similarity == FallbackSimilarity {
        assert r[k] == FallbackResults(added)[k - |existing|];
      }
    }
  }

  /** Padding keeps the given results in front. With enough results it adds nothing; otherwise
      it adds at most the shortfall, each added entry a stored row not among the given ids with
      similarity 0.1, and it stops short only when no other stored row is left. */
  lemma FallbackMeaning(rows: seq<StoredRow>, existing: seq<SearchResult>, n: int)
    ensures var r := Fallback(rows, existing, n);
      && |r| >= |existing| && r[..|existing|] == existing
      && (|existing| >= n ==> r == existing)
      && |r| <= (if |existing| >= n then |existing| else n)
    ensures var r, added := Fallback(rows, existing, n), Recent(rows, ExistingIds(existing), n - |existing|);
      |existing| < n ==>
        && r == existing + FallbackResults(added)
        && (forall k :: 0 <= k < |added| ==>
              && r[|existing| + k] == ResultOf(added[k], FallbackSimilarity)
              && added[k] in rows && added[k].id !in ExistingIds(existing))
        && (|r| < n ==> forall row :: row in rows && row.id !in ExistingIds(existing) ==> row in added)
        && (exists pos :: NewestFirst(rows, ExistingIds(existing), added, pos))
  {
    if |existing| < n {
      var added := Recent(rows, ExistingIds(existing), n - |existing|);
      RecentMeaning(rows, ExistingIds(existing), n - |existing|);
      FallbackResultsMeaning(added);
    }
  }

  lemma {:induction false} MatchedResultsMeaning(ranked: seq<RankedRow>)
    ensures forall k :: 0 <= k < |ranked| ==> MatchedResults(ranked)[k] == ResultOf(ranked[k].row, Abs(ranked[k].rank))
  {
    if ranked != [] {
      MatchedResultsMeaning(ranked[..|ranked| - 1]);
    }
  }

  /** A blank search string never reaches the full-text engine and yields only padding rows. */
  lemma BlankSearch(rows: seq<StoredRow>, query: string, n: int, engine: (string, int) -> seq<RankedRow>)
    requires Trim(query) == ""
    ensures Search(rows, query, n, engine) == Fallback(rows, [], n)
    ensures var r := Search(rows, query, n, engine);
      forall k :: 0 <= k < |r| ==> r[k].similarity == FallbackSimilarity
  {
    PaddingSimilarity(rows, [], n);
  }

  /** Otherwise the engine's rows come first, each with similarity |rank| (never negative),
      padded up to `n` with rows of similarity 0.1. */
  lemma MatchedSearch(rows: seq<StoredRow>, query: string, n: int, engine: (string, int) -> seq<RankedRow>)
    requires Trim(query) != ""
    ensures var r, ranked := Search(rows, query, n, engine), engine(FtsQuery(query), n);
      && |r| >= |ranked|
      && (forall k :: 0 <= k < |ranked| ==>
            r[k] == ResultOf(ranked[k].row, Abs(ranked[k].rank)) && r[k].similarity >= 0.0)
      && (forall k :: |ranked| <= k < |r| ==> r[k].similarity == FallbackSimilarity)
  {
    var ranked := engine(FtsQuery(query), n);
    var matched := MatchedResults(ranked);
    var r := Search(rows, query, n, engine);
    MatchedResultsMeaning(ranked);
    assert r == if |matched| < n then Fallback(rows, matched, n) else matched;
    if |matched| < n {
      PaddingSimilarity(rows, matched, n);
      forall k | 0 <= k < |ranked| ensures r[k] == matched[k] {
        assert r[..|matched|][k] == r[k];
      }
    }
  }

  /** A search nothing matches still returns the stored examples as padding, not an empty
      list. */
  lemma NoMatchIsPadded(row: StoredRow)
    ensures Search([row], "quantum physics", 5, (q, n) => []) == [ResultOf(row, FallbackSimilarity)]
  {
    var query := "quantum physics";
    assert !IsSpace(query[0]);
    TrimEmptyIffAllSpace(query);
    assert MatchedResults([]) == [];
    assert ExistingIds([]) == [];
    var rest := Recent([], [], 4);
    assert [row][..0] == [];
    assert Recent([row], [], 5) == [row];
  }

  // ---------------------------------------------------------------- the store

  class TaskStore {
    const dbPath: string
    /** Whether the connection handle is set (`db !== null`). */
    var open: bool
    /** The contents of `task_examples` in the database file, in insertion order. */
    var rows: seq<StoredRow>

    /** The primary key: no id twice. */
    predicate Valid()
      reads this
    {
      DistinctIds(rows)
    }

    /** `rows` is whatever the file at the path already holds. */
    constructor(dbPath: Option<string>, stored: seq<StoredRow>)
      requires DistinctIds(stored)
      ensures this.dbPath == dbPath.GetOr(DefaultPath)
      ensures !open && rows == stored && Valid()
    {
      this.dbPath := dbPath.GetOr(DefaultPath);
      open := false;
      rows := stored;
    }

    /** Opens the connection; the tables and triggers exist afterwards and the rows are kept. */
    method Initialize()
      modifies this
      ensures open && rows == old(rows)
    {
      open := true;
    }

    /** `addExample` with `freshId` the generated id. */
    method AddExample(example: TaskExample, freshId: string) returns (r: Result<string, string>)
      requires Valid()
      modifies this
      ensures Valid() && open == old(open)
      ensures !open ==> r == Failure(NotInitialized) && rows == old(rows)
      ensures open && freshId in Ids(old(rows)) ==> r == Failure(DuplicateId) && rows == old(rows)
      ensures open && freshId !in Ids(old(rows)) ==>
        r == Success(freshId) && rows == old(rows) + [StoredRow(freshId, example)]
    {
      if !open {
        return Failure(NotInitialized);
      }
      if freshId in Ids(rows) {
        return Failure(DuplicateId);
      }
      rows := rows + [StoredRow(freshId, example)];
      r := Success(freshId);
    }

    method SearchSimilarExamples(query: string, n: int, engine: (string, int) -> seq<RankedRow>)
      returns (r: Result<seq<SearchResult>, string>)
      ensures !open ==> r == Failure(NotInitialized)
      ensures open ==> r == Success(Search(rows, query, n, engine))
    {
      if !open {
        return Failure(NotInitialized);
      }
      r := Success(Search(rows, query, n, engine));
    }

    /** Clears the handle; on a closed store it does nothing, so closing twice is closing once. */
    method Close()
      modifies this
      ensures !open && rows == old(rows)
    {
      if open {
        open := false;
      }
    }
  }

  /** A store used after it is closed refuses to add or search until it is opened again, and
      reopening finds the rows added before. */
  method CloseThenReopen(store: TaskStore, example: TaskExample, freshId: string, query: string, engine: (string, int) -> seq<RankedRow>)
    returns (added: Result<string, string>, refused: Result<seq<SearchResult>, string>, reopened: Result<seq<SearchResult>, string>)
    requires store.Valid() && freshId !in Ids(store.rows)
    modifies store
    ensures added.Success? && refused == Failure(NotInitialized)
    ensures reopened.Success? && reopened.value == Search(old(store.rows) + [StoredRow(freshId, example)], query, 3, engine)
  {
    store.Initialize();
    added := store.AddExample(example, freshId);
    store.Close();
    store.Close();
    refused := store.SearchSimilarExamples(query, 3, engine);
    store.Initialize();
    reopened := store.SearchSimilarExamples(query, 3, engine);
  }
}
