/** `listFiles` (packages/gwanli-core/src/lib/workspace-explorer.ts): resolving the database
    path, then preparing the stored slugs under a prefix for `buildTree`. */
module WorkspaceExplorer {
  import opened Wrappers
  import opened Strings
  import opened SlugTree

  // ---------------------------------------------------------------- the database path

  /** A path beginning `~/` is the home directory joined with the rest; `join` stands for
      `path.join`, whose normalisation this model does not compute. */
  function ExpandHome(dbPath: string, home: string, join: (string, string) -> string): (expanded: string)
    ensures StartsWith(dbPath, "~/") ==> expanded == join(home, dbPath[2..])
    ensures !StartsWith(dbPath, "~/") ==> expanded == dbPath
  {
    if StartsWith(dbPath, "~/") then join(home, dbPath[2..]) else dbPath
  }

  /** The name is looked up among the configured workspaces; an unreadable configuration
      (`None`) and an unknown name both make it a database path. */
  datatype Source = Source(dbPath: string, displayName: string)

  function ResolveSource(config: Option<map<string, string>>, workspaceNameOrPath: string): (src: Source)
    ensures config.Some? && workspaceNameOrPath in config.value ==>
      src == Source(config.value[workspaceNameOrPath], "workspace: " + workspaceNameOrPath)
    ensures !(config.Some? && workspaceNameOrPath in config.value) ==>
      src == Source(workspaceNameOrPath, "database path")
  {
    if config.Some? && workspaceNameOrPath in config.value then
      Source(config.value[workspaceNameOrPath], "workspace: " + workspaceNameOrPath)
    else Source(workspaceNameOrPath, "database path")
  }

  // ---------------------------------------------------------------- preparing the slugs

  /** `.filter(slug => slug && slug.startsWith(prefix))`. */
  function KeepUnder(slugs: seq<string>, prefix: string): (kept: seq<string>)
    ensures |kept| <= |slugs|
    ensures forall i :: 0 <= i < |kept| ==> kept[i] != "" && StartsWith(kept[i], prefix) && kept[i] in slugs
    ensures forall i :: 0 <= i < |slugs| && slugs[i] != "" && StartsWith(slugs[i], prefix) ==> slugs[i] in kept
  {
    if slugs == [] then []
    else
      var init := KeepUnder(slugs[..|slugs| - 1], prefix);
      var last := slugs[|slugs| - 1];
      assert forall i :: 0 <= i < |slugs| - 1 ==> slugs[i] == slugs[..|slugs| - 1][i];
      if last != "" && StartsWith(last, prefix) then init + [last] else init
  }

  /** `.map(slug => slug.replace(prefix, short))`. */
  function RewriteAll(slugs: seq<string>, prefix: string, short: string): (rewritten: seq<string>)
    ensures |rewritten| == |slugs|
    ensures forall i :: 0 <= i < |slugs| ==> rewritten[i] == ReplaceFirst(slugs[i], prefix, short)
  {
    seq(|slugs|, i requires 0 <= i < |slugs| => ReplaceFirst(slugs[i], prefix, short))
  }

  /** A slug that starts with the prefix becomes the short form followed by the rest of the
      slug; a slug that nowhere contains the prefix is unchanged (for a short form free of `$`). */
  lemma RewriteMeaning(slugs: seq<string>, prefix: string, short: string)
    requires '$' !in short
    ensures var rewritten := RewriteAll(slugs, prefix, short);
      && (forall i :: 0 <= i < |slugs| && StartsWith(slugs[i], prefix) ==> rewritten[i] == short + slugs[i][|prefix|..])
      && (forall i :: 0 <= i < |slugs| && (forall k: nat :: !OccursAt(slugs[i], prefix, k)) ==> rewritten[i] == slugs[i])
  {
    forall i | 0 <= i < |slugs| && StartsWith(slugs[i], prefix)
      ensures RewriteAll(slugs, prefix, short)[i] == short + slugs[i][|prefix|..]
    {
      ReplaceLeading(slugs[i], prefix, short);
    }
  }

  predicate SortedByLength(s: seq<string>) {
    forall i, j :: 0 <= i < j < |s| ==> |s[i]| <= |s[j]|
  }

  /** The strings of length `n`, in order. */
  function WithLength(s: seq<string>, n: nat): (r: seq<string>)
    ensures forall i :: 0 <= i < |r| ==> |r[i]| == n
  {
    if s == [] then []
    else WithLength(s[..|s| - 1], n) + (if |s[|s| - 1]| == n then [s[|s| - 1]] else [])
  }

  /** Places `x` after every string no longer than it. */
  function InsertByLength(sorted: seq<string>, x: string): (r: seq<string>)
    ensures multiset(r) == multiset(sorted) + multiset{x}
  {
    if sorted == [] || |sorted[|sorted| - 1]| <= |x| then sorted + [x]
    else
      var init := sorted[..|sorted| - 1];
      assert sorted == init + [sorted[|sorted| - 1]];
      InsertByLength(init, x) + [sorted[|sorted| - 1]]
  }

  /** `.sort((a, b) => a.length - b.length)`, a stable sort, as insertion of each string in turn. */
  function SortByLength(s: seq<string>): (r: seq<string>)
    ensures multiset(r) == multiset(s)
  {
    if s == [] then []
    else
      assert s == s[..|s| - 1] + [s[|s| - 1]];
      InsertByLength(SortByLength(s[..|s| - 1]), s[|s| - 1])
  }

  lemma {:induction false} InsertKeepsSorted(sorted: seq<string>, x: string)
    requires SortedByLength(sorted)
    ensures SortedByLength(InsertByLength(sorted, x))
  {
    if sorted != [] && |sorted[|sorted| - 1]| > |x| {
      var init, last := sorted[..|sorted| - 1], sorted[|sorted| - 1];
      InsertKeepsSorted(init, x);
      var front := InsertByLength(init, x);
      assert forall i :: 0 <= i < |init| ==> |init[i]| <= |last|;
      InsertBounded(init, x, |last|);
      var r := front + [last];
      assert InsertByLength(sorted, x) == r;
      forall i, j | 0 <= i < j < |r| ensures |r[i]| <= |r[j]| {
        assert r[i] == front[i];
        if j < |r| - 1 {
          assert r[j] == front[j];
        }
      }
    }
  }

  /** Inserting keeps every string within a bound all of them meet. */
  lemma InsertBounded(sorted: seq<string>, x: string, bound: nat)
    requires forall i :: 0 <= i < |sorted| ==> |sorted[i]| <= bound
    requires |x| <= bound
    ensures forall i :: 0 <= i < |InsertByLength(sorted, x)| ==> |InsertByLength(sorted, x)[i]| <= bound
  {
    var r := InsertByLength(sorted, x);
    forall i | 0 <= i < |r| ensures |r[i]| <= bound {
      assert r[i] in multiset(r);
      if r[i] != x {
        assert r[i] in multiset(sorted);
      }
    }
  }

  lemma {:induction false} WithLengthAppend(a: seq<string>, b: seq<string>, n: nat)
    ensures WithLength(a + b, n) == WithLength(a, n) + WithLength(b, n)
    decreases |b|
  {
    if b != [] {
      var b0 := b[..|b| - 1];
      assert (a + b)[..|a + b| - 1] == a + b0;
      WithLengthAppend(a, b0, n);
      assert b[..|b| - 1] == b0;
    } else {
      assert a + b == a;
    }
  }

  /** Among strings of one length, the new one comes after those already there (insertion only
      steps over longer strings). */
  lemma {:induction false} InsertWithLength(sorted: seq<string>, x: string, n: nat)
    ensures WithLength(InsertByLength(sorted, x), n) == WithLength(sorted, n) + (if |x| == n then [x] else [])
  {
    if sorted != [] && |sorted[|sorted| - 1]| > |x| {
      var init, last := sorted[..|sorted| - 1], sorted[|sorted| - 1];
      InsertWithLength(init, x, n);
      var front := InsertByLength(init, x);
      var xs := if |x| == n then [x] else [];
      var ls := if |last| == n then [last] else [];
      var w := WithLength(init, n);
      assert InsertByLength(sorted, x) == front + [last];
      assert WithLength(front + [last], n) == WithLength(front, n) + ls by {
        DropLast(front, last);
      }
      assert WithLength(sorted, n) == w + ls;
      SwapEmpty(w, xs, ls);
    }
  }

  lemma DropLast<T>(a: seq<T>, y: T)
    ensures (a + [y])[..|a|] == a && (a + [y])[|a|] == y
  {
  }

  lemma SwapEmpty<T>(w: seq<T>, xs: seq<T>, ls: seq<T>)
    requires xs == [] || ls == []
    ensures w + xs + ls == w + ls + xs
  {
  }

  /** The sort orders by length, keeps the strings, and keeps the input order among strings of
      equal length. */
  lemma {:induction false} SortByLengthCorrect(s: seq<string>)
    ensures SortedByLength(SortByLength(s))
    ensures multiset(SortByLength(s)) == multiset(s)
    ensures forall n: nat :: WithLength(SortByLength(s), n) == WithLength(s, n)
  {
    if s != [] {
      var init := s[..|s| - 1];
      SortByLengthCorrect(init);
      InsertKeepsSorted(SortByLength(init), s[|s| - 1]);
      forall n: nat ensures WithLength(SortByLength(s), n) == WithLength(s, n) {
        InsertWithLength(SortByLength(init), s[|s| - 1], n);
      }
    }
  }

  /** Lines 60-63: the slugs under `processedPrefix`, rewritten to start with the short form and
      ordered by length. */
  function PrepareSlugs(slugs: seq<string>, prefix: SlugPrefix): (prepared: seq<string>)
    ensures |prepared| <= |slugs|
    ensures SortedByLength(prepared)
  {
    var kept := KeepUnder(slugs, prefix.processedPrefix);
    var rewritten := RewriteAll(kept, prefix.processedPrefix, prefix.shortenedPrefix);
    SortByLengthCorrect(rewritten);
    assert |SortByLength(rewritten)| == |rewritten| by {
      assert |multiset(SortByLength(rewritten))| == |multiset(rewritten)|;
    }
    SortByLength(rewritten)
  }

  /** Every prepared slug is the short form followed by a stored slug with the processed prefix
      removed, and every non-empty stored slug under the prefix gives one (the `$` patterns of
      `replace` aside, which only a prefix holding `$` can trigger). */
  lemma PrepareSlugsMeaning(slugs: seq<string>, prefix: SlugPrefix)
    requires '$' !in prefix.shortenedPrefix
    ensures forall t :: t in PrepareSlugs(slugs, prefix) ==>
      exists s :: s in slugs && s != "" && StartsWith(s, prefix.processedPrefix)
        && t == prefix.shortenedPrefix + s[|prefix.processedPrefix|..]
    ensures forall s :: s in slugs && s != "" && StartsWith(s, prefix.processedPrefix) ==>
      prefix.shortenedPrefix + s[|prefix.processedPrefix|..] in PrepareSlugs(slugs, prefix)
  {
    var p, c := prefix.processedPrefix, prefix.shortenedPrefix;
    var kept := KeepUnder(slugs, p);
    var rewritten := RewriteAll(kept, p, c);
    SortByLengthCorrect(rewritten);
    var prepared := PrepareSlugs(slugs, prefix);
    assert multiset(prepared) == multiset(rewritten);
    forall t | t in prepared
      ensures exists s :: s in slugs && s != "" && StartsWith(s, p) && t == c + s[|p|..]
    {
      assert t in multiset(rewritten);
      var i :| 0 <= i < |rewritten| && rewritten[i] == t;
      ReplaceLeading(kept[i], p, c);
    }
    forall s | s in slugs && s != "" && StartsWith(s, p) ensures c + s[|p|..] in prepared {
      var j :| 0 <= j < |slugs| && slugs[j] == s;
      var i :| 0 <= i < |kept| && kept[i] == s;
      ReplaceLeading(s, p, c);
      assert rewritten[i] == c + s[|p|..];
      assert rewritten[i] in multiset(prepared);
    }
  }

  lemma RootlessPrefix()
    ensures ExtractSlugPrefix("/a") == SlugPrefix("/a", "a")
  {
    assert TrimStart("/a") == "/a" && TrimEnd("/a") == "/a";
    assert "/a" == "" + ['/'] + "a";
    SplitConcat("", '/', "a");
    SplitWithout("a", '/');
  }

  lemma RewriteExample()
    ensures RewriteAll(["/ab"], "/a", "a") == ["ab"]
  {
    var rewritten := RewriteAll(["/ab"], "/a", "a");
    assert StartsWith("/ab", "/a");
    ReplaceLeading("/ab", "/a", "a");
    assert "/ab"[2..] == "b";
    assert "a" + "b" == "ab";
    assert rewritten[0] == "ab" && |rewritten| == 1;
  }

  lemma KeepExample()
    ensures KeepUnder(["/ab"], "/a") == ["/ab"]
  {
    assert ["/ab"][..0] == [];
    assert StartsWith("/ab", "/a");
  }

  lemma SortExample()
    ensures SortByLength(["ab"]) == ["ab"]
  {
    assert ["ab"][..0] == [];
    assert InsertByLength([], "ab") == ["ab"];
  }

  /** Raw string matching: a prefix keeps slugs that merely share its characters, so `/a` keeps
      `/ab`, which the tree then shows as `ab`. */
  lemma PrefixIsNotSegmentAware()
    ensures PrepareSlugs(["/ab"], ExtractSlugPrefix("/a")) == ["ab"]
  {
    RootlessPrefix();
    KeepExample();
    RewriteExample();
    SortExample();
  }

  // ---------------------------------------------------------------- listFiles

  /** What `listFiles` renders: the display name and the tree (the `treeify` text around them is
      not modelled). */
  datatype Listing = Listing(displayName: string, tree: map<string, Node>)

  /** `listFiles`: the workspace configuration, the home directory, `path.join` and the
      database read are inputs; a failed read is rethrown unchanged. */
  function ListFiles(
    config: Option<map<string, string>>, workspaceNameOrPath: string, prefix: string, maxDepth: int,
    home: string, join: (string, string) -> string, load: string -> Result<seq<string>, string>)
    : (r: Result<Listing, string>)
    ensures var src := ResolveSource(config, workspaceNameOrPath);
      var loaded := load(ExpandHome(src.dbPath, home, join));
      && (r.Failure? <==> loaded.Failure?)
      && (r.Failure? ==> r.error == loaded.error)
      && (r.Success? ==> r.value.displayName == src.displayName
                         && r.value.tree == TreeOf(PrepareSlugs(loaded.value, ExtractSlugPrefix(prefix)), maxDepth))
  {
    var src := ResolveSource(config, workspaceNameOrPath);
    var slugs :- load(ExpandHome(src.dbPath, home, join));
    Success(Listing(src.displayName, TreeOf(PrepareSlugs(slugs, ExtractSlugPrefix(prefix)), maxDepth)))
  }

  /** Which database `listFiles` reads, and under which name: a configured workspace name reads
      its configured path and is shown as `workspace: <name>`; any other name (or an unreadable
      configuration) is itself read as a path and shown as `database path`; in both cases a
      path starting `~/` is read as the home directory joined with the rest. */
  lemma ListFilesReadsResolvedPath(
    config: Option<map<string, string>>, workspaceNameOrPath: string, prefix: string, maxDepth: int,
    home: string, join: (string, string) -> string, load: string -> Result<seq<string>, string>)
    ensures var r := ListFiles(config, workspaceNameOrPath, prefix, maxDepth, home, join, load);
      var configured := config.Some? && workspaceNameOrPath in config.value;
      var path := if configured then config.value[workspaceNameOrPath] else workspaceNameOrPath;
      var target := if StartsWith(path, "~/") then join(home, path[2..]) else path;
      var name := if configured then "workspace: " + workspaceNameOrPath else "database path";
      && (load(target).Failure? ==> r == Failure(load(target).error))
      && (load(target).Success? ==>
            r == Success(Listing(name, TreeOf(PrepareSlugs(load(target).value, ExtractSlugPrefix(prefix)), maxDepth))))
  {
  }

  /** Because the prepared list is length-sorted, no stored slug under the prefix is lost from
      the tree: each shows its full path or is cut off by the depth marker. */
  lemma ListFilesKeepsEverySlug(
    config: Option<map<string, string>>, workspaceNameOrPath: string, prefix: string, maxDepth: int,
    home: string, join: (string, string) -> string, load: string -> Result<seq<string>, string>)
    requires ListFiles(config, workspaceNameOrPath, prefix, maxDepth, home, join, load).Success?
    ensures var r := ListFiles(config, workspaceNameOrPath, prefix, maxDepth, home, join, load);
      var prepared := PrepareSlugs(load(ExpandHome(ResolveSource(config, workspaceNameOrPath).dbPath, home, join)).value,
                                   ExtractSlugPrefix(prefix));
      forall t :: t in prepared ==> At(r.value.tree, Placed(t, maxDepth)).Some?
  {
    var prepared := PrepareSlugs(load(ExpandHome(ResolveSource(config, workspaceNameOrPath).dbPath, home, join)).value,
                                 ExtractSlugPrefix(prefix));
    SortedKeepsAllPaths(prepared, maxDepth);
  }
}
