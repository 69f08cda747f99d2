/** The tree view of slugs (packages/gwanli-core/src/lib/tree.ts): prefix normalisation and
    `buildTree`, which turns `/`-separated slugs into nested objects cut off at a depth. */
module SlugTree {
  import opened Wrappers
  import opened Strings

  /** A value of the nested object: `null` (a page), the marker `"..."` (more below the depth
      limit), or a nested object. */
  datatype Node = Leaf | More | Sub(children: map<string, Node>)

  // ---------------------------------------------------------------- extractSlugPrefix

  datatype SlugPrefix = SlugPrefix(processedPrefix: string, shortenedPrefix: string)

  /** The last `/`-separated component: the text after the last `/`, or all of `s`. */
  function LastComponent(s: string): (c: string)
    ensures '/' !in c
  {
    var parts := Split(s, '/');
    parts[|parts| - 1]
  }

  lemma {:induction false} LastComponentIsTail(s: string)
    ensures EndsWith(s, LastComponent(s))
    ensures var c := LastComponent(s); |c| == |s| || s[|s| - |c| - 1] == '/'
    ensures |Split(s, '/')| > 1 ==> |LastComponent(s)| < |s|
  {
    if s != [] {
      var t := s[1..];
      LastComponentIsTail(t);
      var rest := Split(t, '/');
      var c, c1 := LastComponent(s), LastComponent(t);
      assert t[|t| - |c1|..] == s[|s| - |c1|..];
      if s[0] != '/' && |rest| == 1 {
        assert c == [s[0]] + rest[0];
        JoinSplit(t, '/');
        assert c1 == rest[0] && |c1| == |t|;
        assert c == s;
      } else {
        assert c == c1;
        if s[0] != '/' {
          assert |c1| < |t|;
          assert s[|s| - |c| - 1] == t[|t| - |c1| - 1];
        } else if |c1| < |t| {
          assert s[|s| - |c| - 1] == t[|t| - |c1| - 1];
        }
      }
    }
  }

  /** `extractSlugPrefix`: a trailing `/` is dropped (the test looks at the trimmed prefix, the
      slice drops the last character of the untrimmed one), except from `"/"` itself; the short
      form is the last component. */
  function ExtractSlugPrefix(prefix: string): (r: SlugPrefix)
    ensures '/' !in r.shortenedPrefix
  {
    var normalised :=
      if EndsWith(Trim(prefix), "/") && prefix != "/" then prefix[..|prefix| - 1] else prefix;
    SlugPrefix(normalised, LastComponent(normalised))
  }

  /** The processed prefix is the prefix with exactly one trailing slash removed when it has
      one, and unchanged when not even its trimmed form ends in a slash. When only the trimmed
      form ends in a slash, the character removed is the trailing white space, not the slash. */
  lemma ProcessedPrefixMeaning(prefix: string)
    ensures var p := ExtractSlugPrefix(prefix).processedPrefix;
      && (prefix == "/" || !EndsWith(Trim(prefix), "/") ==> p == prefix)
      && (prefix != "/" && EndsWith(prefix, "/") ==> p + "/" == prefix)
      && (prefix != "/" && EndsWith(Trim(prefix), "/") && !EndsWith(prefix, "/") ==>
            IsSpace(prefix[|prefix| - 1]) && p + [prefix[|prefix| - 1]] == prefix)
  {
    if prefix != "/" && EndsWith(prefix, "/") {
      SlashDropped(prefix);
    }
    if prefix != "/" && EndsWith(Trim(prefix), "/") && !EndsWith(prefix, "/") {
      SpaceDropped(prefix);
    }
  }

  lemma SlashDropped(prefix: string)
    requires prefix != "/" && EndsWith(prefix, "/")
    ensures ExtractSlugPrefix(prefix).processedPrefix + "/" == prefix
  {
    TrailingSlashSurvivesTrim(prefix);
    var p := prefix[..|prefix| - 1];
    assert ExtractSlugPrefix(prefix).processedPrefix == p;
    assert prefix[|prefix| - 1] == '/';
    assert p + "/" == prefix;
  }

  lemma SpaceDropped(prefix: string)
    requires prefix != "/" && EndsWith(Trim(prefix), "/") && !EndsWith(prefix, "/")
    ensures IsSpace(prefix[|prefix| - 1])
    ensures ExtractSlugPrefix(prefix).processedPrefix + [prefix[|prefix| - 1]] == prefix
  {
    var last := prefix[|prefix| - 1];
    if !IsSpace(last) {
      LastNonSpaceSurvivesTrim(prefix);
      assert false;
    }
    assert prefix[..|prefix| - 1] + [last] == prefix;
  }

  /** The short form is the tail of the processed prefix after its last slash. */
  lemma ShortenedPrefixIsTail(prefix: string)
    ensures var r := ExtractSlugPrefix(prefix);
      && EndsWith(r.processedPrefix, r.shortenedPrefix)
      && (var p, c := r.processedPrefix, r.shortenedPrefix; |c| == |p| || p[|p| - |c| - 1] == '/')
  {
    LastComponentIsTail(ExtractSlugPrefix(prefix).processedPrefix);
  }

  lemma TrailingSlashSurvivesTrim(s: string)
    ensures EndsWith(s, "/") ==> EndsWith(Trim(s), "/")
  {
    if EndsWith(s, "/") {
      assert s[|s| - 1] == '/';
      LastNonSpaceSurvivesTrim(s);
      var t := Trim(s);
      assert t[|t| - 1..] == "/";
    }
  }

  /** Trimming keeps a last character that is not white space. */
  lemma LastNonSpaceSurvivesTrim(s: string)
    requires s != [] && !IsSpace(s[|s| - 1])
    ensures Trim(s) != [] && Trim(s)[|Trim(s)| - 1] == s[|s| - 1]
  {
    var t := TrimStart(s);
    assert s[..|s|][|s| - 1] == s[|s| - 1];
    assert t != [];
    assert t[|t| - 1] == s[|s| - 1];
    assert Trim(s) == t;
  }

  /** The root prefix keeps its slash and has an empty short form. */
  lemma RootPrefix()
    ensures ExtractSlugPrefix("/") == SlugPrefix("/", "")
  {
    assert Split("/", '/') == ["", ""];
  }

  /** Trailing white space defeats the normalisation: the slice removes the space, not the slash. */
  lemma TrailingSpaceQuirk()
    ensures ExtractSlugPrefix("/a/ ").processedPrefix == "/a/"
  {
    assert TrimStart("/a/ ") == "/a/ ";
    assert TrimEnd("/a/ ") == "/a/";
  }

  // ---------------------------------------------------------------- buildTree

  /** The depth limit as the loop sees it: `currDepth >= maxDepth` holds from depth 0 when
      `maxDepth` is not positive. */
  function Cap(maxDepth: int): nat {
    if maxDepth < 0 then 0 else maxDepth
  }

  /** The index of the part at which the walk of a slug with `partCount` parts stops. */
  function StopDepth(partCount: nat, maxDepth: int): (s: nat)
    requires partCount >= 1
    ensures s < partCount && s <= Cap(maxDepth)
  {
    if partCount - 1 < Cap(maxDepth) then partCount - 1 else Cap(maxDepth)
  }

  /** Walks `path` from `t`, replacing a missing or `null` entry by a fresh object on the way,
      and stores `v` under `last`. (The marker is never met on the way: see `TreeShape`.) */
  function Graft(t: map<string, Node>, path: seq<string>, last: string, v: Node): map<string, Node>
    decreases |path|
  {
    if path == [] then t[last := v]
    else
      var k := path[0];
      var sub := if k in t && t[k].Sub? then t[k].children else map[];
      t[k := Sub(Graft(sub, path[1..], last, v))]
  }

  /** The keys of `slug` that the walk uses, up to and including the one it stores into. */
  function Placed(slug: string, maxDepth: int): (keys: seq<string>)
    ensures 1 <= |keys| <= Cap(maxDepth) + 1
  {
    var parts := Split(slug, '/');
    parts[..StopDepth(|parts|, maxDepth) + 1]
  }

  /** One turn of the outer loop of `buildTree`. */
  function Insert(t: map<string, Node>, slug: string, maxDepth: int): map<string, Node> {
    var parts := Split(slug, '/');
    var s := StopDepth(|parts|, maxDepth);
    Graft(t, parts[..s], parts[s], if s >= maxDepth then More else Leaf)
  }

  /** The tree `buildTree` returns. */
  function TreeOf(slugs: seq<string>, maxDepth: int): (t: map<string, Node>)
    ensures slugs == [] ==> t == map[]
  {
    if slugs == [] then map[] else Insert(TreeOf(slugs[..|slugs| - 1], maxDepth), slugs[|slugs| - 1], maxDepth)
  }

  /** `buildTree`: for each slug, the inner loop stops at the depth limit (storing `"..."`) or at
      the last part (storing `null`). */
  method BuildTree(slugs: seq<string>, maxDepth: int) returns (tree: map<string, Node>)
    ensures tree == TreeOf(slugs, maxDepth)
  {
    tree := map[];
    for i := 0 to |slugs|
      invariant tree == TreeOf(slugs[..i], maxDepth)
    {
      var parts := Split(slugs[i], '/');
      var stop := |parts| - 1;
      var value := Leaf;
      for currDepth := 0 to |parts|
        invariant currDepth <= StopDepth(|parts|, maxDepth)
      {
        if currDepth >= maxDepth {
          stop, value := currDepth, More;
          break;
        }
        if currDepth == |parts| - 1 {
          stop, value := currDepth, Leaf;
          break;
        }
      }
      assert stop == StopDepth(|parts|, maxDepth) && value == (if stop >= maxDepth then More else Leaf);
      tree := Graft(tree, parts[..stop], parts[stop], value);
      assert slugs[..i + 1][..i] == slugs[..i];
    }
    assert slugs[..|slugs|] == slugs;
  }

  // ---------------------------------------------------------------- lookups and shape

  /** The value at a key path; the empty path denotes the tree itself. */
  function At(t: map<string, Node>, path: seq<string>): Option<Node>
    decreases |path|
  {
    if path == [] then Some(Sub(t))
    else if path[0] !in t then None
    else if |path| == 1 then Some(t[path[0]])
    else match t[path[0]]
      case Sub(c) => At(c, path[1..])
      case _ => None
  }

  /** Depth discipline below depth `depth`: `null` only above the limit, the marker exactly at
      the limit, objects only above it. */
  ghost predicate Shape(n: Node, depth: int, cap: int)
    decreases n
  {
    match n
    case Leaf => depth < cap
    case More => depth == cap
    case Sub(c) => depth < cap && forall k :: k in c ==> Shape(c[k], depth + 1, cap)
  }

  ghost predicate ShapeMap(t: map<string, Node>, depth: int, cap: int) {
    forall k :: k in t ==> Shape(t[k], depth, cap)
  }

  lemma {:induction false} GraftShape(t: map<string, Node>, path: seq<string>, last: string, v: Node, depth: int, cap: int)
    requires ShapeMap(t, depth, cap)
    requires v.More? ==> depth + |path| == cap
    requires v.Leaf? ==> depth + |path| < cap
    requires !v.Sub? && depth + |path| <= cap
    ensures ShapeMap(Graft(t, path, last, v), depth, cap)
    decreases |path|
  {
    if path != [] {
      var k := path[0];
      var sub := if k in t && t[k].Sub? then t[k].children else map[];
      GraftShape(sub, path[1..], last, v, depth + 1, cap);
      var g := Graft(t, path, last, v);
      assert g[k] == Sub(Graft(sub, path[1..], last, v));
      assert Shape(g[k], depth, cap);
    }
  }

  /** Every tree `buildTree` returns keeps the depth discipline from the top. */
  lemma {:induction false} TreeShape(slugs: seq<string>, maxDepth: int)
    ensures ShapeMap(TreeOf(slugs, maxDepth), 0, Cap(maxDepth))
  {
    if slugs != [] {
      TreeShape(slugs[..|slugs| - 1], maxDepth);
      var parts := Split(slugs[|slugs| - 1], '/');
      var s := StopDepth(|parts|, maxDepth);
      GraftShape(TreeOf(slugs[..|slugs| - 1], maxDepth), parts[..s], parts[s],
        if s >= maxDepth then More else Leaf, 0, Cap(maxDepth));
    }
  }

  lemma {:induction false} ShapeAt(t: map<string, Node>, path: seq<string>, depth: int, cap: int)
    requires ShapeMap(t, depth, cap)
    requires |path| >= 1 && At(t, path).Some?
    ensures Shape(At(t, path).value, depth + |path| - 1, cap)
    decreases |path|
  {
    if |path| > 1 {
      ShapeAt(t[path[0]].children, path[1..], depth + 1, cap);
    }
  }

  /** No key path of a built tree is longer than the limit plus one, and the marker `"..."`
      sits exactly at key index `maxDepth` (index 0 when `maxDepth` is not positive). */
  lemma DepthBound(slugs: seq<string>, maxDepth: int, path: seq<string>)
    requires |path| >= 1 && At(TreeOf(slugs, maxDepth), path).Some?
    ensures |path| <= Cap(maxDepth) + 1
    ensures At(TreeOf(slugs, maxDepth), path).value.More? <==> |path| == Cap(maxDepth) + 1
  {
    TreeShape(slugs, maxDepth);
    ShapeAt(TreeOf(slugs, maxDepth), path, 0, Cap(maxDepth));
  }

  // ---------------------------------------------------------------- what each slug leaves

  lemma {:induction false} GraftAt(t: map<string, Node>, path: seq<string>, last: string, v: Node)
    ensures At(Graft(t, path, last, v), path + [last]) == Some(v)
    decreases |path|
  {
    if path != [] {
      var k := path[0];
      var sub := if k in t && t[k].Sub? then t[k].children else map[];
      GraftAt(sub, path[1..], last, v);
      assert (path + [last])[1..] == path[1..] + [last];
    }
  }

  /** Right after its turn, a slug's walk ends in `null` at its full path when it has at most
      `maxDepth` parts, and in the marker at its first `maxDepth + 1` parts otherwise. */
  lemma InsertPlaces(t: map<string, Node>, slug: string, maxDepth: int)
    ensures var parts := Split(slug, '/');
      && (|parts| <= Cap(maxDepth) ==> At(Insert(t, slug, maxDepth), parts) == Some(Leaf))
      && (|parts| > Cap(maxDepth) ==> At(Insert(t, slug, maxDepth), parts[..Cap(maxDepth) + 1]) == Some(More))
  {
    var parts := Split(slug, '/');
    var s := StopDepth(|parts|, maxDepth);
    GraftAt(t, parts[..s], parts[s], if s >= maxDepth then More else Leaf);
    TakeSnoc(parts, s);
    if |parts| <= Cap(maxDepth) {
      assert parts[..s + 1] == parts;
    }
  }

  predicate ProperPrefix(q: seq<string>, p: seq<string>) {
    |q| < |p| && p[..|q|] == q
  }

  /** A later graft keeps every present path except those it cuts off: paths running through
      the key it overwrites. */
  lemma {:induction false} GraftKeeps(t: map<string, Node>, path: seq<string>, last: string, v: Node, p: seq<string>)
    requires At(t, p).Some?
    requires !ProperPrefix(path + [last], p)
    ensures At(Graft(t, path, last, v), p).Some?
    decreases |path|
  {
    if p != [] && path != [] && p[0] == path[0] && |p| > 1 {
      var k := path[0];
      var sub := t[k].children;
      assert (path + [last])[1..] == path[1..] + [last];
      assert !ProperPrefix(path[1..] + [last], p[1..]) by {
        if |path[1..] + [last]| < |p[1..]| {
          assert p[..|path + [last]|] == [k] + p[1..][..|path[1..] + [last]|];
          assert path + [last] == [k] + (path[1..] + [last]);
        }
      }
      GraftKeeps(sub, path[1..], last, v, p[1..]);
    }
  }

  lemma {:induction false} JoinPrefix(parts: seq<string>, k: nat, sep: string)
    requires 1 <= k < |parts|
    ensures Join(parts, sep) == Join(parts[..k], sep) + sep + Join(parts[k..], sep)
  {
    if k > 1 {
      JoinPrefix(parts[1..], k - 1, sep);
      assert parts[1..][..k - 1] == parts[..k][1..];
      assert parts[1..][k - 1..] == parts[k..];
    }
  }

  /** The path one slug leaves never lies strictly inside the path of a slug that is at least as
      long, so a length-sorted input never cuts off an earlier path. */
  lemma NotCutByLonger(s: string, s2: string, maxDepth: int)
    ensures ProperPrefix(Placed(s2, maxDepth), Placed(s, maxDepth)) ==> |s2| < |s|
  {
    var q, p := Placed(s2, maxDepth), Placed(s, maxDepth);
    if ProperPrefix(q, p) {
      var parts, parts2 := Split(s, '/'), Split(s2, '/');
      assert q == parts2 by {
        assert |q| <= Cap(maxDepth);
      }
      assert parts[..|q|] == q;
      JoinSplit(s, '/');
      JoinSplit(s2, '/');
      JoinPrefix(parts, |q|, "/");
    }
  }

  /** When the slugs arrive in non-decreasing length order, every slug's walk is still present in
      the result: its full path, or its first `maxDepth + 1` parts. */
  lemma {:induction false} SortedKeepsAllPaths(slugs: seq<string>, maxDepth: int)
    requires forall i, j :: 0 <= i < j < |slugs| ==> |slugs[i]| <= |slugs[j]|
    ensures forall i :: 0 <= i < |slugs| ==> At(TreeOf(slugs, maxDepth), Placed(slugs[i], maxDepth)).Some?
  {
    if slugs != [] {
      var n := |slugs| - 1;
      var init := slugs[..n];
      SortedKeepsAllPaths(init, maxDepth);
      forall i | 0 <= i < |slugs| ensures At(TreeOf(slugs, maxDepth), Placed(slugs[i], maxDepth)).Some? {
        if i < n {
          assert init[i] == slugs[i];
          InsertKeepsShorter(TreeOf(init, maxDepth), slugs[n], slugs[i], maxDepth);
        } else {
          InsertPlacesSome(TreeOf(init, maxDepth), slugs[n], maxDepth);
        }
      }
    }
  }

  lemma TakeSnoc<T>(s: seq<T>, k: nat)
    requires k < |s|
    ensures s[..k] + [s[k]] == s[..k + 1]
  {
  }

  /** A slug's own walk is present right after its turn. */
  lemma InsertPlacesSome(t: map<string, Node>, slug: string, maxDepth: int)
    ensures At(Insert(t, slug, maxDepth), Placed(slug, maxDepth)).Some?
  {
    var parts := Split(slug, '/');
    var s := StopDepth(|parts|, maxDepth);
    GraftAt(t, parts[..s], parts[s], if s >= maxDepth then More else Leaf);
    TakeSnoc(parts, s);
  }

  /** A turn for a slug at least as long keeps an earlier slug's walk. */
  lemma InsertKeepsShorter(t: map<string, Node>, slug: string, other: string, maxDepth: int)
    requires At(t, Placed(other, maxDepth)).Some?
    requires |other| <= |slug|
    ensures At(Insert(t, slug, maxDepth), Placed(other, maxDepth)).Some?
  {
    var parts := Split(slug, '/');
    var s := StopDepth(|parts|, maxDepth);
    TakeSnoc(parts, s);
    NotCutByLonger(other, slug, maxDepth);
    GraftKeeps(t, parts[..s], parts[s], if s >= maxDepth then More else Leaf, Placed(other, maxDepth));
  }

  /** Without the ordering a later, shorter slug erases a subtree: `a` after `a/b` leaves `a`
      as `null` and `a/b` is gone. */
  lemma UnsortedLosesPath()
    ensures At(TreeOf(["a/b", "a"], 2), ["a", "b"]) == None
    ensures At(TreeOf(["a", "a/b"], 2), ["a", "b"]) == Some(Leaf)
  {
    SplitWithout("a", '/');
    SplitWithout("b", '/');
    assert "a/b" == "a" + ['/'] + "b";
    SplitConcat("a", '/', "b");
    assert ["a/b", "a"][..1] == ["a/b"];
    assert ["a", "a/b"][..1] == ["a"];
    var ab := map["a" := Sub(map["b" := Leaf])];
    assert TreeOf(["a/b"], 2) == Graft(map[], ["a"], "b", Leaf) == ab;
    assert TreeOf(["a/b", "a"], 2) == ab["a" := Leaf];
    assert TreeOf(["a"], 2) == map["a" := Leaf];
    assert TreeOf(["a", "a/b"], 2) == Graft(map["a" := Leaf], ["a"], "b", Leaf) == ab;
  }
}
