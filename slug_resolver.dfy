/** `generateSlugs` (packages/gwanli-core/src/lib/notion.ts): a depth-first walk of the
    page/database forest from the workspace roots that gives every reachable item a unique
    `/`-path built from sanitized titles. The closure state of the source (`slugMap`,
    `usedSlugs`) is threaded through the methods as in/out parameters. */
module SlugResolver {
  import opened Wrappers
  import opened Strings
  import opened NotionTypes
  import opened Slug
  import opened Notion

  // ---------------------------------------------------------------- candidates

  /** The `k`-th candidate component for a sanitized title: the title itself, then `title-1`, `title-2`, ... */
  function Candidate(base: string, k: nat): string {
    if k == 0 then base else base + "-" + NatToString(k)
  }

  /** The full path tried for the `k`-th candidate under `parentSlug`. */
  function SlugPath(parentSlug: string, base: string, k: nat): string {
    parentSlug + "/" + Candidate(base, k)
  }

  /** Different counters never produce the same path, so the suffix loop always moves on. */
  lemma SlugPathInjective(parentSlug: string, base: string, j: nat, k: nat)
    ensures j != k ==> SlugPath(parentSlug, base, j) != SlugPath(parentSlug, base, k)
  {
    if j != k {
      var pj, pk := SlugPath(parentSlug, base, j), SlugPath(parentSlug, base, k);
      if j == 0 || k == 0 {
        assert |pj| != |pk|;
      } else {
        NatToStringInjective(j, k);
        assert pj[|parentSlug| + 1 + |base| + 1..] == NatToString(j);
        assert pk[|parentSlug| + 1 + |base| + 1..] == NatToString(k);
      }
    }
  }

  /** The suffix loop: the first candidate whose full path is not yet used. */
  method FreshComponent(usedSlugs: set<string>, parentSlug: string, base: string) returns (finalSlug: string, ghost n: nat)
    ensures finalSlug == Candidate(base, n)
    ensures parentSlug + "/" + finalSlug !in usedSlugs
    ensures forall j: nat :: j < n ==> SlugPath(parentSlug, base, j) in usedSlugs
  {
    finalSlug := base;
    var counter: nat := 1;
    ghost var tried: set<string> := {};
    while parentSlug + "/" + finalSlug in usedSlugs
      invariant counter >= 1
      invariant finalSlug == Candidate(base, counter - 1)
      invariant forall j: nat :: j < counter - 1 ==> SlugPath(parentSlug, base, j) in usedSlugs
      invariant tried <= usedSlugs
      invariant forall s :: s in tried ==> exists j: nat :: j < counter - 1 && s == SlugPath(parentSlug, base, j)
      decreases usedSlugs - tried
    {
      assert SlugPath(parentSlug, base, counter - 1) !in tried by {
        forall s | s in tried ensures s != SlugPath(parentSlug, base, counter - 1) {
          var j: nat :| j < counter - 1 && s == SlugPath(parentSlug, base, j);
          SlugPathInjective(parentSlug, base, j, counter - 1);
        }
      }
      tried := tried + {parentSlug + "/" + finalSlug};
      finalSlug := base + "-" + NatToString(counter);
      counter := counter + 1;
    }
    n := counter - 1;
  }

  // ---------------------------------------------------------------- the forest

  predicate DistinctIds(items: seq<Item>) {
    forall i, j :: 0 <= i < j < |items| ==> items[i].Id() != items[j].Id()
  }

  function Ids(items: seq<Item>): set<string> {
    set i | 0 <= i < |items| :: items[i].Id()
  }

  /** The filter of `processItems`: workspace roots for `null`, page children otherwise. */
  predicate IsChildOf(item: Item, parent: Option<string>) {
    if parent.None? then IsWorkspaceRoot(item) else GetParentId(item) == parent
  }

  /** The positions the filter keeps, from `from` on, in increasing order. */
  function ChildIndices(items: seq<Item>, parent: Option<string>, from: nat): (idx: seq<int>)
    requires from <= |items|
    ensures forall k :: 0 <= k < |idx| ==> from <= idx[k] && ChildAt(items, parent, idx[k])
    ensures forall k, l :: 0 <= k < l < |idx| ==> idx[k] < idx[l]
    ensures forall x {:trigger ChildAt(items, parent, x)} :: from <= x && ChildAt(items, parent, x) ==> x in idx
    decreases |items| - from
  {
    if from == |items| then []
    else (if IsChildOf(items[from], parent) then [from] else []) + ChildIndices(items, parent, from + 1)
  }

  /** `items.filter(...)` for the parent: the items at the kept positions, in `items` order. */
  function Children(items: seq<Item>, parent: Option<string>): (children: seq<Item>)
    ensures |children| == |ChildIndices(items, parent, 0)|
    ensures forall k :: 0 <= k < |children| ==> children[k] == items[ChildIndices(items, parent, 0)[k]]
  {
    var idx := ChildIndices(items, parent, 0);
    seq(|idx|, k requires 0 <= k < |idx| => items[idx[k]])
  }

  /** The filter keeps exactly the children of `parent`, each once, in `items` order. */
  lemma ChildrenMeaning(items: seq<Item>, parent: Option<string>)
    ensures forall k :: 0 <= k < |Children(items, parent)| ==>
      Children(items, parent)[k] in items && IsChildOf(Children(items, parent)[k], parent)
    ensures forall x {:trigger ChildAt(items, parent, x)} :: ChildAt(items, parent, x) ==> items[x] in Children(items, parent)
    ensures forall k, l :: 0 <= k < l < |Children(items, parent)| ==>
      ChildIndices(items, parent, 0)[k] < ChildIndices(items, parent, 0)[l]
  {
    var idx := ChildIndices(items, parent, 0);
    var children := Children(items, parent);
    forall k | 0 <= k < |children| ensures children[k] in items && IsChildOf(children[k], parent) {
      assert ChildAt(items, parent, idx[k]);
    }
    forall x | ChildAt(items, parent, x) ensures items[x] in children {
      var k :| 0 <= k < |idx| && idx[k] == x;
      assert children[k] == items[x];
    }
  }

  lemma ChildrenDistinct(items: seq<Item>, parent: Option<string>)
    requires DistinctIds(items)
    ensures DistinctIds(Children(items, parent))
  {
    var idx := ChildIndices(items, parent, 0);
    var children := Children(items, parent);
    forall k, l | 0 <= k < l < |children| ensures children[k].Id() != children[l].Id() {
      assert ChildAt(items, parent, idx[l]);
      assert idx[k] < idx[l];
    }
  }

  /** An item is selected by the filter of at most one parent. */
  lemma ChildOfOne(item: Item, p: Option<string>, q: Option<string>)
    requires IsChildOf(item, p) && IsChildOf(item, q)
    ensures p == q
  {
  }

  /** The concatenation `[...pages, ...databases]`. */
  function AllItems(pages: seq<Page>, databases: seq<Database>): (items: seq<Item>)
    ensures |items| == |pages| + |databases|
  {
    seq(|pages|, i requires 0 <= i < |pages| => PageItem(pages[i])) +
    seq(|databases|, i requires 0 <= i < |databases| => DatabaseItem(databases[i]))
  }

  // ---------------------------------------------------------------- what the map satisfies

  /** `items[x]` has a slug in `m`. */
  predicate Keyed(items: seq<Item>, m: map<string, string>, x: int) {
    0 <= x < |items| && items[x].Id() in m
  }

  /** `items[x]` is selected by the filter of `processItems(parent)`. */
  predicate ChildAt(items: seq<Item>, parent: Option<string>, x: int) {
    0 <= x < |items| && IsChildOf(items[x], parent)
  }

  /** The parent page of `items[x]` got its slug after `m0`. */
  predicate NewParentAt(items: seq<Item>, m0: map<string, string>, m: map<string, string>, x: int) {
    0 <= x < |items| && GetParentId(items[x]).Some? &&
    GetParentId(items[x]).value in m && GetParentId(items[x]).value !in m0
  }

  /** `slug` is the first candidate under `parentSlug` that was free: every earlier one is a slug
      of some item in `m`. */
  ghost predicate MinimalSuffix(m: map<string, string>, parentSlug: string, base: string, slug: string) {
    exists n: nat :: slug == SlugPath(parentSlug, base, n) &&
      forall j: nat :: j < n ==> SlugPath(parentSlug, base, j) in m.Values
  }

  /** `items[x]` has a slug, and it extends the slug of its parent (`""` for a workspace root)
      by a candidate of its own sanitized title whose earlier candidates are all held in `m`.
      Which items hold them, and when they got them, is `FirstFreeAtTurn`. */
  ghost predicate SlugAssigned(items: seq<Item>, m: map<string, string>, x: int) {
    && Keyed(items, m, x)
    && var item := items[x];
       var base := SanitizeSlug(ExtractTitle(item));
       if IsWorkspaceRoot(item) then MinimalSuffix(m, "", base, m[item.Id()])
       else
         GetParentId(item).Some? && GetParentId(item).value in m &&
         MinimalSuffix(m, m[GetParentId(item).value], base, m[item.Id()])
  }

  predicate Injective(m: map<string, string>) {
    forall a, b :: a in m && b in m && a != b ==> m[a] != m[b]
  }

  /** The state of the walk: `usedSlugs` is exactly the set of assigned slugs, keys are item ids,
      no slug is assigned twice, and every assigned slug has the shape above. */
  ghost predicate Inv(items: seq<Item>, m: map<string, string>, used: set<string>) {
    && used == m.Values
    && m.Keys <= Ids(items)
    && Injective(m)
    && forall x {:trigger SlugAssigned(items, m, x)} :: Keyed(items, m, x) ==> SlugAssigned(items, m, x)
  }

  /** `m2` keeps every entry of `m1`. */
  predicate Grows(m1: map<string, string>, m2: map<string, string>) {
    forall k :: k in m1 ==> k in m2 && m2[k] == m1[k]
  }

  lemma GrowsValues(m1: map<string, string>, m2: map<string, string>)
    requires Grows(m1, m2)
    ensures m1.Values <= m2.Values
  {
    forall v | v in m1.Values ensures v in m2.Values {
      var k :| k in m1 && m1[k] == v;
      assert m2[k] == v;
    }
  }

  lemma AssignedGrows(items: seq<Item>, m1: map<string, string>, m2: map<string, string>, x: int)
    requires Grows(m1, m2)
    requires SlugAssigned(items, m1, x)
    ensures SlugAssigned(items, m2, x)
  {
    GrowsValues(m1, m2);
    var item := items[x];
    var base := SanitizeSlug(ExtractTitle(item));
    var parentSlug := if IsWorkspaceRoot(item) then "" else m1[GetParentId(item).value];
    var n: nat :| m1[item.Id()] == SlugPath(parentSlug, base, n) &&
      forall j: nat :: j < n ==> SlugPath(parentSlug, base, j) in m1.Values;
    assert MinimalSuffix(m2, parentSlug, base, m2[item.Id()]) by {
      assert m2[item.Id()] == SlugPath(parentSlug, base, n);
    }
  }

  lemma AddValues(m: map<string, string>, k: string, v: string)
    requires k !in m
    ensures m[k := v].Values == m.Values + {v}
  {
    var m2 := m[k := v];
    forall w | w in m2.Values ensures w in m.Values + {v} {
      var k' :| k' in m2 && m2[k'] == w;
      if k' != k {
        assert m[k'] == w;
      }
    }
    forall w | w in m.Values ensures w in m2.Values {
      var k' :| k' in m && m[k'] == w;
      assert m2[k'] == w;
    }
    assert m2[k] == v;
  }

  /** The slug recorded for child `items[c]` of `parent` has the promised shape. */
  lemma NewSlugAssigned(items: seq<Item>, m: map<string, string>, parent: Option<string>, parentSlug: string,
                        c: int, finalSlug: string, n: nat)
    requires ChildAt(items, parent, c) && !Keyed(items, m, c)
    requires parent.None? ==> parentSlug == ""
    requires parent.Some? ==> parent.value in m && parentSlug == m[parent.value]
    requires finalSlug == Candidate(SanitizeSlug(ExtractTitle(items[c])), n)
    requires forall j: nat :: j < n ==> SlugPath(parentSlug, SanitizeSlug(ExtractTitle(items[c])), j) in m.Values
    ensures SlugAssigned(items, m[items[c].Id() := parentSlug + "/" + finalSlug], c)
  {
    var m2 := m[items[c].Id() := parentSlug + "/" + finalSlug];
    var base := SanitizeSlug(ExtractTitle(items[c]));
    assert Grows(m, m2);
    GrowsValues(m, m2);
    assert m2[items[c].Id()] == SlugPath(parentSlug, base, n);
    assert MinimalSuffix(m2, parentSlug, base, m2[items[c].Id()]);
    if parent.Some? {
      assert m2[parent.value] == parentSlug;
    }
  }

  /** Recording the slug of child `items[c]` of `parent` keeps the invariant. */
  lemma AddKeepsInv(items: seq<Item>, m: map<string, string>, parent: Option<string>, parentSlug: string,
                    c: int, finalSlug: string, n: nat)
    requires DistinctIds(items) && Inv(items, m, m.Values)
    requires ChildAt(items, parent, c) && !Keyed(items, m, c)
    requires parent.None? ==> parentSlug == ""
    requires parent.Some? ==> parent.value in m && parentSlug == m[parent.value]
    requires finalSlug == Candidate(SanitizeSlug(ExtractTitle(items[c])), n)
    requires parentSlug + "/" + finalSlug !in m.Values
    requires forall j: nat :: j < n ==> SlugPath(parentSlug, SanitizeSlug(ExtractTitle(items[c])), j) in m.Values
    ensures Inv(items, m[items[c].Id() := parentSlug + "/" + finalSlug], m.Values + {parentSlug + "/" + finalSlug})
  {
    var id := items[c].Id();
    var s := parentSlug + "/" + finalSlug;
    var m2 := m[id := s];
    AddValues(m, id, s);
    assert id in Ids(items);
    assert Injective(m2);
    assert Grows(m, m2);
    NewSlugAssigned(items, m, parent, parentSlug, c, finalSlug, n);
    forall x | Keyed(items, m2, x) ensures SlugAssigned(items, m2, x) {
      if x != c {
        assert items[x].Id() != id;
        assert SlugAssigned(items, m, x);
        AssignedGrows(items, m, m2, x);
      }
    }
  }

  /** A child of a page that has just been recorded has no slug yet. */
  lemma FreshParentHasNoKeyedChild(items: seq<Item>, m: map<string, string>, parent: Option<string>, c: int, s: string)
    requires DistinctIds(items) && Inv(items, m, m.Values)
    requires ChildAt(items, parent, c) && !Keyed(items, m, c)
    requires parent.Some? ==> parent.value in m
    ensures forall x {:trigger ChildAt(items, Some(items[c].Id()), x)} ::
      ChildAt(items, Some(items[c].Id()), x) ==> !Keyed(items, m[items[c].Id() := s], x)
  {
    forall x | ChildAt(items, Some(items[c].Id()), x) ensures !Keyed(items, m[items[c].Id() := s], x) {
      assert x != c;
      assert items[x].Id() != items[c].Id();
      assert Keyed(items, m, x) ==> SlugAssigned(items, m, x);
    }
  }

  /** The loop invariants of `processItems` survive one turn, given what the turn promises. */
  lemma WalkStep(items: seq<Item>, currentParent: Option<string>, slugMap: map<string, string>,
                 children: seq<Item>, i: int, c: int, before: map<string, string>, m: map<string, string>)
    requires children == Children(items, currentParent) && DistinctIds(children)
    requires 0 <= i < |children| && c == ChildIndices(items, currentParent, 0)[i]
    requires currentParent.Some? ==> currentParent.value in slugMap
    requires Grows(slugMap, before) && Grows(before, m)
    requires forall k :: 0 <= k < i ==> children[k].Id() in before
    requires forall k :: i <= k < |children| ==> children[k].Id() !in before
    requires forall x {:trigger Keyed(items, before, x)} :: Keyed(items, before, x) && !Keyed(items, slugMap, x) ==>
      ChildAt(items, currentParent, x) || NewParentAt(items, slugMap, before, x)
    requires forall x {:trigger NewParentAt(items, slugMap, before, x)} ::
      NewParentAt(items, slugMap, before, x) ==> Keyed(items, before, x)
    requires Keyed(items, m, c)
    requires forall x {:trigger Keyed(items, m, x)} :: Keyed(items, m, x) && !Keyed(items, before, x) ==>
      x == c || NewParentAt(items, before, m, x)
    requires forall x {:trigger NewParentAt(items, before, m, x)} ::
      NewParentAt(items, before, m, x) ==> Keyed(items, m, x)
    ensures Grows(slugMap, m)
    ensures forall k :: 0 <= k < i + 1 ==> children[k].Id() in m
    ensures forall k :: i + 1 <= k < |children| ==> children[k].Id() !in m
    ensures forall x {:trigger Keyed(items, m, x)} :: Keyed(items, m, x) && !Keyed(items, slugMap, x) ==>
      ChildAt(items, currentParent, x) || NewParentAt(items, slugMap, m, x)
    ensures forall x {:trigger NewParentAt(items, slugMap, m, x)} ::
      NewParentAt(items, slugMap, m, x) ==> Keyed(items, m, x)
  {
    forall k | 0 <= k <= i ensures children[k].Id() in m {
      if k < i {
        assert children[k].Id() in before;
      }
    }
    forall k | i < k < |children| ensures children[k].Id() !in m {
      var y := ChildIndices(items, currentParent, 0)[k];
      assert y != c by {
        assert children[k].Id() != children[i].Id();
      }
      assert ChildAt(items, currentParent, y);
      assert !Keyed(items, before, y);
      assert !NewParentAt(items, before, m, y);
      assert !Keyed(items, m, y);
    }
    forall x | Keyed(items, m, x) && !Keyed(items, slugMap, x)
      ensures ChildAt(items, currentParent, x) || NewParentAt(items, slugMap, m, x)
    {
      if Keyed(items, before, x) {
        assert ChildAt(items, currentParent, x) || NewParentAt(items, slugMap, before, x);
      } else if x == c {
        assert ChildAt(items, currentParent, x);
      } else {
        assert NewParentAt(items, before, m, x);
      }
    }
    forall x | NewParentAt(items, slugMap, m, x) ensures Keyed(items, m, x) {
      if NewParentAt(items, slugMap, before, x) {
        assert Keyed(items, before, x);
      } else {
        assert NewParentAt(items, before, m, x);
      }
    }
  }

  lemma ChildrenUnkeyed(items: seq<Item>, parent: Option<string>, m: map<string, string>)
    requires forall x {:trigger ChildAt(items, parent, x)} :: ChildAt(items, parent, x) ==> !Keyed(items, m, x)
    ensures forall k :: 0 <= k < |Children(items, parent)| ==> Children(items, parent)[k].Id() !in m
  {
    var idx := ChildIndices(items, parent, 0);
    forall k | 0 <= k < |Children(items, parent)| ensures Children(items, parent)[k].Id() !in m {
      assert ChildAt(items, parent, idx[k]);
    }
  }

  lemma ChildrenKeyed(items: seq<Item>, parent: Option<string>, m: map<string, string>)
    requires forall k :: 0 <= k < |Children(items, parent)| ==> Children(items, parent)[k].Id() in m
    ensures forall x {:trigger ChildAt(items, parent, x)} :: ChildAt(items, parent, x) ==> Keyed(items, m, x)
  {
    var idx := ChildIndices(items, parent, 0);
    forall x | ChildAt(items, parent, x) ensures Keyed(items, m, x) {
      var k :| 0 <= k < |idx| && idx[k] == x;
      assert Children(items, parent)[k] == items[x];
    }
  }

  /** `items[x]` and `items[y]` are both children of `parent` and sanitize to the same title,
      so they compete for the same candidates. */
  predicate SameTitleSiblings(items: seq<Item>, parent: Option<string>, x: int, y: int) {
    && ChildAt(items, parent, x) && ChildAt(items, parent, y)
    && SanitizeSlug(ExtractTitle(items[x])) == SanitizeSlug(ExtractTitle(items[y]))
  }

  /** The slug of `parent` in `m`: `""` for the workspace level. */
  function ParentSlugIn(m: map<string, string>, parent: Option<string>): string {
    if parent.Some? && parent.value in m then m[parent.value] else ""
  }

  /** Of two slugged siblings with the same sanitized title, the one earlier in `items` took an
      earlier candidate: `title`, then `title-1`, `title-2`, ... in `items` order. */
  ghost predicate SuffixesInOrder(items: seq<Item>, m: map<string, string>) {
    forall parent, x, y {:trigger SameTitleSiblings(items, parent, x, y)} ::
      x < y && SameTitleSiblings(items, parent, x, y) && Keyed(items, m, x) && Keyed(items, m, y) ==>
      exists i: nat, j: nat :: i < j &&
        m[items[x].Id()] == SlugPath(ParentSlugIn(m, parent), SanitizeSlug(ExtractTitle(items[x])), i) &&
        m[items[y].Id()] == SlugPath(ParentSlugIn(m, parent), SanitizeSlug(ExtractTitle(items[x])), j)
  }

  /** Recording a new key does not change the slug of a parent that already has one. */
  lemma ParentSlugAfterAdd(m: map<string, string>, parent: Option<string>, parentSlug: string, id: string, s: string)
    requires id !in m
    requires parent.None? ==> parentSlug == ""
    requires parent.Some? ==> parent.value in m && parentSlug == m[parent.value]
    ensures ParentSlugIn(m[id := s], parent) == parentSlug
  {
  }

  /** In the loop of `processItems`, the children after position `i` have no slug, so no item
      later than `children[i]` under the same parent has one. */
  lemma LaterSiblingsUnkeyed(items: seq<Item>, parent: Option<string>, m: map<string, string>, i: int, c: int)
    requires 0 <= i < |Children(items, parent)| && c == ChildIndices(items, parent, 0)[i]
    requires forall k :: i <= k < |Children(items, parent)| ==> Children(items, parent)[k].Id() !in m
    ensures forall y {:trigger ChildAt(items, parent, y)} :: c < y && ChildAt(items, parent, y) ==> !Keyed(items, m, y)
  {
    var idx := ChildIndices(items, parent, 0);
    forall y | c < y && ChildAt(items, parent, y) ensures !Keyed(items, m, y) {
      var k :| 0 <= k < |idx| && idx[k] == y;
      assert Children(items, parent)[k] == items[y];
    }
  }

  // ---------------------------------------------------------------- first free at its turn

  /** The filter that selects `item`: `None` for a workspace root, its parent id otherwise. */
  function ParentKey(item: Item): (key: Option<string>)
    ensures IsWorkspaceRoot(item) ==> IsChildOf(item, key)
    ensures GetParentId(item).Some? ==> IsChildOf(item, key)
  {
    if IsWorkspaceRoot(item) then None else GetParentId(item)
  }

  /** `s` is the slug of a sibling that comes before `items[x]` in `items`. */
  ghost predicate HeldByEarlierSibling(items: seq<Item>, m: map<string, string>, x: int, s: string)
    requires 0 <= x < |items|
  {
    exists y :: 0 <= y < x && IsChildOf(items[y], ParentKey(items[x])) && items[y].Id() in m && m[items[y].Id()] == s
  }

  /** `items[x]` has the slug the loop gives it at its turn: its parent's slug extended by the
      first candidate of its title that no sibling before it in `items` holds. */
  ghost predicate FirstFreeAtTurn(items: seq<Item>, m: map<string, string>, x: int) {
    && Keyed(items, m, x)
    && (!IsWorkspaceRoot(items[x]) ==> GetParentId(items[x]).Some? && GetParentId(items[x]).value in m)
    && var base := SanitizeSlug(ExtractTitle(items[x]));
       var parentSlug := ParentSlugIn(m, ParentKey(items[x]));
       exists n: nat :: m[items[x].Id()] == SlugPath(parentSlug, base, n) &&
         forall j: nat :: j < n ==> HeldByEarlierSibling(items, m, x, SlugPath(parentSlug, base, j))
  }

  ghost predicate FirstFreeInOrder(items: seq<Item>, m: map<string, string>) {
    forall x {:trigger FirstFreeAtTurn(items, m, x)} :: Keyed(items, m, x) ==> FirstFreeAtTurn(items, m, x)
  }

  /** A candidate component never contains `/`. */
  lemma CandidateNoSlash(base: string, k: nat)
    requires IsSlugComponent(base)
    ensures '/' !in Candidate(base, k)
  {
    if k > 0 {
      var d := NatToString(k);
      assert forall i :: 0 <= i < |d| ==> d[i] != '/';
      assert forall i :: 0 <= i < |base| ==> base[i] != '/' by {
        forall i | 0 <= i < |base| ensures base[i] != '/' {
          assert IsSlugChar(base[i]);
        }
      }
    }
  }

  /** A path `p/c` with no `/` in `c` determines `p`: the text before its last slash. */
  lemma SameDirectory(p: string, c: string, q: string, d: string)
    requires '/' !in c && '/' !in d
    requires p + "/" + c == q + "/" + d
    ensures p == q
  {
    var s := p + "/" + c;
    assert s[|p|] == '/' && s[|q|] == '/';
    assert |p| == |q|;
    assert p == s[..|p|] && q == s[..|q|];
  }

  /** Every stored slug is non-empty. */
  lemma SlugNonEmpty(items: seq<Item>, m: map<string, string>, k: string)
    requires Inv(items, m, m.Values) && k in m
    ensures m[k] != ""
  {
    var y :| 0 <= y < |items| && items[y].Id() == k;
    assert SlugAssigned(items, m, y);
  }

  /** A stored slug that is a candidate under `parentSlug`, the slug of `parent`, belongs to a
      child of `parent`: candidates under different parents never meet. */
  lemma CandidateOwner(items: seq<Item>, m: map<string, string>, parent: Option<string>, parentSlug: string,
                       base: string, j: nat, y: int)
    requires Inv(items, m, m.Values) && IsSlugComponent(base)
    requires parent.None? ==> parentSlug == ""
    requires parent.Some? ==> parent.value in m && parentSlug == m[parent.value]
    requires Keyed(items, m, y) && m[items[y].Id()] == SlugPath(parentSlug, base, j)
    ensures IsChildOf(items[y], parent)
  {
    assert SlugAssigned(items, m, y);
    var baseY := SanitizeSlug(ExtractTitle(items[y]));
    var py := if IsWorkspaceRoot(items[y]) then "" else m[GetParentId(items[y]).value];
    var n: nat :| m[items[y].Id()] == SlugPath(py, baseY, n);
    CandidateNoSlash(base, j);
    CandidateNoSlash(baseY, n);
    SameDirectory(parentSlug, Candidate(base, j), py, Candidate(baseY, n));
    if parent.Some? {
      SlugNonEmpty(items, m, parent.value);
      if !IsWorkspaceRoot(items[y]) {
        assert m[GetParentId(items[y]).value] == m[parent.value];
      }
    } else if !IsWorkspaceRoot(items[y]) {
      SlugNonEmpty(items, m, GetParentId(items[y]).value);
    }
  }

  /** Every candidate the suffix loop skipped for child `items[c]` is held by a sibling before it. */
  lemma SkippedHeldEarlier(items: seq<Item>, m: map<string, string>, parent: Option<string>, parentSlug: string,
                           c: int, j: nat)
    requires Inv(items, m, m.Values)
    requires ChildAt(items, parent, c) && !Keyed(items, m, c)
    requires forall y {:trigger ChildAt(items, parent, y)} :: c < y && ChildAt(items, parent, y) ==> !Keyed(items, m, y)
    requires parent.None? ==> parentSlug == ""
    requires parent.Some? ==> parent.value in m && parentSlug == m[parent.value]
    requires SlugPath(parentSlug, SanitizeSlug(ExtractTitle(items[c])), j) in m.Values
    ensures exists y :: (0 <= y < c && IsChildOf(items[y], parent) && items[y].Id() in m &&
                         m[items[y].Id()] == SlugPath(parentSlug, SanitizeSlug(ExtractTitle(items[c])), j))
  {
    var s := SlugPath(parentSlug, SanitizeSlug(ExtractTitle(items[c])), j);
    var k :| k in m && m[k] == s;
    var y :| 0 <= y < |items| && items[y].Id() == k;
    CandidateOwner(items, m, parent, parentSlug, SanitizeSlug(ExtractTitle(items[c])), j, y);
    assert ChildAt(items, parent, y);
    assert y != c;
  }

  /** Growing the map keeps a slug first free at its turn. */
  lemma FirstFreeGrows(items: seq<Item>, m1: map<string, string>, m2: map<string, string>, x: int)
    requires Grows(m1, m2) && FirstFreeAtTurn(items, m1, x)
    ensures FirstFreeAtTurn(items, m2, x)
  {
    var base := SanitizeSlug(ExtractTitle(items[x]));
    var parentSlug := ParentSlugIn(m1, ParentKey(items[x]));
    ParentSlugGrows(m1, m2, ParentKey(items[x]));
    var n: nat :| m1[items[x].Id()] == SlugPath(parentSlug, base, n) &&
      forall j: nat :: j < n ==> HeldByEarlierSibling(items, m1, x, SlugPath(parentSlug, base, j));
    forall j: nat | j < n ensures HeldByEarlierSibling(items, m2, x, SlugPath(parentSlug, base, j)) {
      HeldGrows(items, m1, m2, x, SlugPath(parentSlug, base, j));
    }
    assert m2[items[x].Id()] == SlugPath(parentSlug, base, n);
  }

  lemma ParentSlugGrows(m1: map<string, string>, m2: map<string, string>, key: Option<string>)
    requires Grows(m1, m2) && (key.Some? ==> key.value in m1)
    ensures ParentSlugIn(m2, key) == ParentSlugIn(m1, key)
  {
  }

  lemma HeldGrows(items: seq<Item>, m1: map<string, string>, m2: map<string, string>, x: int, s: string)
    requires 0 <= x < |items| && Grows(m1, m2) && HeldByEarlierSibling(items, m1, x, s)
    ensures HeldByEarlierSibling(items, m2, x, s)
  {
    var y :| 0 <= y < x && IsChildOf(items[y], ParentKey(items[x])) && items[y].Id() in m1 && m1[items[y].Id()] == s;
    assert m2[items[y].Id()] == s;
  }

  /** The slug recorded for child `items[c]` is first free at its turn. */
  lemma NewFirstFree(items: seq<Item>, m: map<string, string>, parent: Option<string>, parentSlug: string,
                     c: int, finalSlug: string, n: nat)
    requires Inv(items, m, m.Values)
    requires ChildAt(items, parent, c) && !Keyed(items, m, c)
    requires forall y {:trigger ChildAt(items, parent, y)} :: c < y && ChildAt(items, parent, y) ==> !Keyed(items, m, y)
    requires parent.None? ==> parentSlug == ""
    requires parent.Some? ==> parent.value in m && parentSlug == m[parent.value]
    requires finalSlug == Candidate(SanitizeSlug(ExtractTitle(items[c])), n)
    requires forall j: nat :: j < n ==> SlugPath(parentSlug, SanitizeSlug(ExtractTitle(items[c])), j) in m.Values
    ensures FirstFreeAtTurn(items, m[items[c].Id() := parentSlug + "/" + finalSlug], c)
  {
    var id := items[c].Id();
    var m2 := m[id := parentSlug + "/" + finalSlug];
    var base := SanitizeSlug(ExtractTitle(items[c]));
    assert ParentKey(items[c]) == parent;
    ParentSlugAfterAdd(m, parent, parentSlug, id, parentSlug + "/" + finalSlug);
    forall j: nat | j < n ensures HeldByEarlierSibling(items, m2, c, SlugPath(parentSlug, base, j)) {
      SkippedHeldEarlier(items, m, parent, parentSlug, c, j);
      var y :| 0 <= y < c && IsChildOf(items[y], parent) && items[y].Id() in m &&
        m[items[y].Id()] == SlugPath(parentSlug, base, j);
      assert m2[items[y].Id()] == m[items[y].Id()];
    }
    assert m2[id] == SlugPath(parentSlug, base, n);
  }

  /** Recording child `items[c]`'s slug keeps every slug first free at its turn. */
  lemma AddKeepsFirstFree(items: seq<Item>, m: map<string, string>, parent: Option<string>, parentSlug: string,
                          c: int, finalSlug: string, n: nat)
    requires DistinctIds(items) && Inv(items, m, m.Values) && FirstFreeInOrder(items, m)
    requires ChildAt(items, parent, c) && !Keyed(items, m, c)
    requires forall y {:trigger ChildAt(items, parent, y)} :: c < y && ChildAt(items, parent, y) ==> !Keyed(items, m, y)
    requires parent.None? ==> parentSlug == ""
    requires parent.Some? ==> parent.value in m && parentSlug == m[parent.value]
    requires finalSlug == Candidate(SanitizeSlug(ExtractTitle(items[c])), n)
    requires forall j: nat :: j < n ==> SlugPath(parentSlug, SanitizeSlug(ExtractTitle(items[c])), j) in m.Values
    ensures FirstFreeInOrder(items, m[items[c].Id() := parentSlug + "/" + finalSlug])
  {
    var id := items[c].Id();
    var m2 := m[id := parentSlug + "/" + finalSlug];
    NewFirstFree(items, m, parent, parentSlug, c, finalSlug, n);
    forall x | Keyed(items, m2, x) ensures FirstFreeAtTurn(items, m2, x) {
      if x != c {
        assert items[x].Id() != id;
        assert FirstFreeAtTurn(items, m, x);
        FirstFreeGrows(items, m, m2, x);
      }
    }
  }

  /** Slugs that are first free at their turn give same-titled siblings increasing suffixes in
      `items` order: an earlier sibling cannot hold a later candidate, since the later sibling
      would then have skipped past it, and cannot share one, since no slug is given twice. */
  lemma FirstFreeGivesOrder(items: seq<Item>, m: map<string, string>)
    requires DistinctIds(items) && Injective(m) && FirstFreeInOrder(items, m)
    ensures SuffixesInOrder(items, m)
  {
    forall parent, x, y | x < y && SameTitleSiblings(items, parent, x, y) && Keyed(items, m, x) && Keyed(items, m, y)
      ensures exists i: nat, j: nat :: (i < j &&
        m[items[x].Id()] == SlugPath(ParentSlugIn(m, parent), SanitizeSlug(ExtractTitle(items[x])), i) &&
        m[items[y].Id()] == SlugPath(ParentSlugIn(m, parent), SanitizeSlug(ExtractTitle(items[x])), j))
    {
      SiblingsInOrder(items, m, parent, x, y);
    }
  }

  /** Two same-titled siblings, each first free at its turn, hold candidates in item order. */
  lemma SiblingsInOrder(items: seq<Item>, m: map<string, string>, parent: Option<string>, x: int, y: int)
    requires DistinctIds(items) && Injective(m)
    requires x < y && SameTitleSiblings(items, parent, x, y)
    requires FirstFreeAtTurn(items, m, x) && FirstFreeAtTurn(items, m, y)
    ensures exists i: nat, j: nat :: (i < j &&
      m[items[x].Id()] == SlugPath(ParentSlugIn(m, parent), SanitizeSlug(ExtractTitle(items[x])), i) &&
      m[items[y].Id()] == SlugPath(ParentSlugIn(m, parent), SanitizeSlug(ExtractTitle(items[x])), j))
  {
    var base := SanitizeSlug(ExtractTitle(items[x]));
    var ps := ParentSlugIn(m, parent);
    assert ParentKey(items[x]) == parent && ParentKey(items[y]) == parent;
    var i: nat :| m[items[x].Id()] == SlugPath(ps, base, i) &&
      forall j: nat :: j < i ==> HeldByEarlierSibling(items, m, x, SlugPath(ps, base, j));
    var j: nat :| m[items[y].Id()] == SlugPath(ps, base, j) &&
      forall k: nat :: k < j ==> HeldByEarlierSibling(items, m, y, SlugPath(ps, base, k));
    assert items[x].Id() != items[y].Id();
    if j <= i {
      assert false;
    }
  }

  // ---------------------------------------------------------------- the walk

  /** `processItems`: assigns slugs to the children of `currentParent` in `items` order, each
      followed by its own subtree. */
  method ProcessItems(items: seq<Item>, currentParent: Option<string>, parentSlug: string,
                      slugMap: map<string, string>, usedSlugs: set<string>)
    returns (m: map<string, string>, used: set<string>)
    requires DistinctIds(items)
    requires Inv(items, slugMap, usedSlugs)
    requires currentParent.None? ==> parentSlug == ""
    requires currentParent.Some? ==> currentParent.value in slugMap && parentSlug == slugMap[currentParent.value]
    requires FirstFreeInOrder(items, slugMap)
    requires forall x {:trigger ChildAt(items, currentParent, x)} ::
      ChildAt(items, currentParent, x) ==> !Keyed(items, slugMap, x)
    ensures Inv(items, m, used)
    ensures FirstFreeInOrder(items, m)
    ensures Grows(slugMap, m)
    ensures forall x {:trigger ChildAt(items, currentParent, x)} ::
      ChildAt(items, currentParent, x) ==> Keyed(items, m, x)
    ensures forall x {:trigger Keyed(items, m, x)} :: Keyed(items, m, x) && !Keyed(items, slugMap, x) ==>
      ChildAt(items, currentParent, x) || NewParentAt(items, slugMap, m, x)
    ensures forall x {:trigger NewParentAt(items, slugMap, m, x)} ::
      NewParentAt(items, slugMap, m, x) ==> Keyed(items, m, x)
    decreases Ids(items) - slugMap.Keys, 1
  {
    var children := Children(items, currentParent);
    ChildrenDistinct(items, currentParent);
    ChildrenUnkeyed(items, currentParent, slugMap);
    m, used := slugMap, usedSlugs;
    var i := 0;
    while i < |children|
      invariant 0 <= i <= |children|
      invariant Inv(items, m, used)
      invariant FirstFreeInOrder(items, m)
      invariant Grows(slugMap, m)
      invariant forall k :: 0 <= k < i ==> children[k].Id() in m
      invariant forall k :: i <= k < |children| ==> children[k].Id() !in m
      invariant forall x {:trigger Keyed(items, m, x)} :: Keyed(items, m, x) && !Keyed(items, slugMap, x) ==>
        ChildAt(items, currentParent, x) || NewParentAt(items, slugMap, m, x)
      invariant forall x {:trigger NewParentAt(items, slugMap, m, x)} ::
        NewParentAt(items, slugMap, m, x) ==> Keyed(items, m, x)
    {
      ghost var c := ChildIndices(items, currentParent, 0)[i];
      ghost var before := m;
      LaterSiblingsUnkeyed(items, currentParent, m, i, c);
      m, used := ProcessChild(items, currentParent, parentSlug, children[i], c, m, used);
      WalkStep(items, currentParent, slugMap, children, i, c, before, m);
      i := i + 1;
    }
    ChildrenKeyed(items, currentParent, m);
  }

  /** One turn of the loop of `processItems`: the suffix loop, the two records, and the
      recursive call for the child's own children. */
  method ProcessChild(items: seq<Item>, currentParent: Option<string>, parentSlug: string, item: Item,
                      ghost c: int, slugMap: map<string, string>, usedSlugs: set<string>)
    returns (m: map<string, string>, used: set<string>)
    requires DistinctIds(items)
    requires Inv(items, slugMap, usedSlugs)
    requires FirstFreeInOrder(items, slugMap)
    requires ChildAt(items, currentParent, c) && items[c] == item && !Keyed(items, slugMap, c)
    requires forall y {:trigger ChildAt(items, currentParent, y)} ::
      c < y && ChildAt(items, currentParent, y) ==> !Keyed(items, slugMap, y)
    requires currentParent.None? ==> parentSlug == ""
    requires currentParent.Some? ==> currentParent.value in slugMap && parentSlug == slugMap[currentParent.value]
    ensures Inv(items, m, used)
    ensures FirstFreeInOrder(items, m)
    ensures Grows(slugMap, m)
    ensures Keyed(items, m, c)
    ensures forall x {:trigger Keyed(items, m, x)} :: Keyed(items, m, x) && !Keyed(items, slugMap, x) ==>
      x == c || NewParentAt(items, slugMap, m, x)
    ensures forall x {:trigger NewParentAt(items, slugMap, m, x)} ::
      NewParentAt(items, slugMap, m, x) ==> Keyed(items, m, x)
    decreases Ids(items) - slugMap.Keys, 0
  {
    var title := ExtractTitle(item);
    var slug := SanitizeSlug(title);
    var finalSlug, n := FreshComponent(usedSlugs, parentSlug, slug);
    var fullSlug := parentSlug + "/" + finalSlug;
    AddKeepsInv(items, slugMap, currentParent, parentSlug, c, finalSlug, n);
    AddKeepsFirstFree(items, slugMap, currentParent, parentSlug, c, finalSlug, n);
    FreshParentHasNoKeyedChild(items, slugMap, currentParent, c, fullSlug);
    var added := slugMap[item.Id() := fullSlug];
    assert Ids(items) - added.Keys < Ids(items) - slugMap.Keys by {
      assert item.Id() in Ids(items);
    }
    m, used := ProcessItems(items, Some(item.Id()), fullSlug, added, usedSlugs + {fullSlug});
    AfterSubtree(items, slugMap, added, m, c);
  }

  /** What one child's turn adds, seen from before the turn: besides the child, only items
      whose parent gained its slug during the turn. */
  lemma AfterSubtree(items: seq<Item>, slugMap: map<string, string>, added: map<string, string>,
                     m: map<string, string>, c: int)
    requires DistinctIds(items)
    requires 0 <= c < |items| && items[c].Id() !in slugMap
    requires added.Keys == slugMap.Keys + {items[c].Id()}
    requires Grows(added, m)
    requires forall x {:trigger Keyed(items, m, x)} :: Keyed(items, m, x) && !Keyed(items, added, x) ==>
      ChildAt(items, Some(items[c].Id()), x) || NewParentAt(items, added, m, x)
    requires forall x {:trigger NewParentAt(items, added, m, x)} :: NewParentAt(items, added, m, x) ==> Keyed(items, m, x)
    requires forall x {:trigger ChildAt(items, Some(items[c].Id()), x)} :: ChildAt(items, Some(items[c].Id()), x) ==> Keyed(items, m, x)
    ensures Keyed(items, m, c)
    ensures forall x {:trigger Keyed(items, m, x)} :: Keyed(items, m, x) && !Keyed(items, slugMap, x) ==>
      x == c || NewParentAt(items, slugMap, m, x)
    ensures forall x {:trigger NewParentAt(items, slugMap, m, x)} ::
      NewParentAt(items, slugMap, m, x) ==> Keyed(items, m, x)
  {
    var id := items[c].Id();
    assert id in added;
    forall x | Keyed(items, m, x) && !Keyed(items, slugMap, x) ensures x == c || NewParentAt(items, slugMap, m, x) {
      if !Keyed(items, added, x) {
        assert ChildAt(items, Some(id), x) || NewParentAt(items, added, m, x);
      } else {
        assert items[x].Id() == id;
      }
    }
    forall x | NewParentAt(items, slugMap, m, x) ensures Keyed(items, m, x) {
      if GetParentId(items[x]).value == id {
        assert ChildAt(items, Some(id), x);
      } else {
        assert NewParentAt(items, added, m, x);
      }
    }
  }

  /** `generateSlugs`. */
  method GenerateSlugs(pages: seq<Page>, databases: seq<Database>) returns (slugMap: map<string, string>)
    requires DistinctIds(AllItems(pages, databases))
    ensures var items := AllItems(pages, databases);
      && slugMap.Keys <= Ids(items)
      && Injective(slugMap)
      && (forall x :: 0 <= x < |items| ==> (items[x].Id() in slugMap <==> Reachable(items, x)))
      && (forall x :: 0 <= x < |items| && items[x].Id() in slugMap ==> SlugAssigned(items, slugMap, x))
      && SuffixesInOrder(items, slugMap)
      && (forall x :: 0 <= x < |items| && items[x].Id() in slugMap ==> FirstFreeAtTurn(items, slugMap, x))
      && (forall x :: 0 <= x < |items| && items[x].Id() in slugMap ==> StartsWith(slugMap[items[x].Id()], "/"))
  {
    var items := AllItems(pages, databases);
    var usedSlugs: set<string>;
    assert Inv(items, map[], {});
    assert FirstFreeInOrder(items, map[]);
    slugMap, usedSlugs := ProcessItems(items, None, "", map[], {});
    KeyedIffReachable(items, slugMap);
    FirstFreeGivesOrder(items, slugMap);
    forall x | 0 <= x < |items| && items[x].Id() in slugMap ensures StartsWith(slugMap[items[x].Id()], "/") {
      SlugIsAbsolute(items, slugMap, x);
    }
  }

  /** A `child_page` block (whose id is the page's id) links to the page's generated slug, an
      absolute path, exactly when the page is reachable from a workspace root, and to the
      literal `undefined` otherwise. */
  lemma ChildPageLinkTarget(items: seq<Item>, slugMap: map<string, string>, x: int, pageTitle: string)
    requires 0 <= x < |items|
    requires slugMap.Keys <= Ids(items)
    requires forall z :: 0 <= z < |items| ==> (items[z].Id() in slugMap <==> Reachable(items, z))
    requires forall z :: 0 <= z < |items| && items[z].Id() in slugMap ==> SlugAssigned(items, slugMap, z)
    ensures var text := if pageTitle != "" then pageTitle else "Untitled Page";
      var link := ChildPageLink(items[x].Id(), pageTitle, slugMap);
      && (Reachable(items, x) ==>
            StartsWith(slugMap[items[x].Id()], "/") && link == "[" + text + "](" + slugMap[items[x].Id()] + ")")
      && (!Reachable(items, x) ==> link == "[" + text + "](undefined)")
  {
    if Reachable(items, x) {
      assert forall z {:trigger Keyed(items, slugMap, z)} :: Keyed(items, slugMap, z) ==> SlugAssigned(items, slugMap, z);
      SlugIsAbsolute(items, slugMap, x);
    }
  }

  // ---------------------------------------------------------------- reachability

  /** A chain of item indices from a workspace root down `page_id` parent links. */
  ghost predicate ValidPath(items: seq<Item>, p: seq<int>) {
    && |p| >= 1
    && (forall k :: 0 <= k < |p| ==> 0 <= p[k] < |items|)
    && IsWorkspaceRoot(items[p[0]])
    && forall k :: 1 <= k < |p| ==> GetParentId(items[p[k]]) == Some(items[p[k - 1]].Id())
  }

  ghost predicate Reachable(items: seq<Item>, x: int) {
    exists p: seq<int> :: ValidPath(items, p) && p[|p| - 1] == x
  }

  lemma {:induction false} PathKeyed(items: seq<Item>, m: map<string, string>, p: seq<int>)
    requires ValidPath(items, p)
    requires forall x {:trigger ChildAt(items, None, x)} :: ChildAt(items, None, x) ==> Keyed(items, m, x)
    requires forall x {:trigger NewParentAt(items, map[], m, x)} :: NewParentAt(items, map[], m, x) ==> Keyed(items, m, x)
    ensures Keyed(items, m, p[|p| - 1])
  {
    if |p| == 1 {
      assert ChildAt(items, None, p[0]);
    } else {
      var q := p[..|p| - 1];
      assert ValidPath(items, q);
      PathKeyed(items, m, q);
      assert NewParentAt(items, map[], m, p[|p| - 1]);
    }
  }

  lemma PathExtend(items: seq<Item>, p: seq<int>, x: int)
    requires ValidPath(items, p)
    requires 0 <= x < |items| && GetParentId(items[x]) == Some(items[p[|p| - 1]].Id())
    ensures ValidPath(items, p + [x]) && (p + [x])[|p|] == x
  {
    var q := p + [x];
    forall k | 1 <= k < |q| ensures GetParentId(items[q[k]]) == Some(items[q[k - 1]].Id()) {
      if k < |p| {
        assert q[k] == p[k] && q[k - 1] == p[k - 1];
      }
    }
  }

  lemma SuffixIsLonger(m: map<string, string>, parentSlug: string, base: string, slug: string)
    requires MinimalSuffix(m, parentSlug, base, slug)
    ensures |slug| > |parentSlug|
  {
  }

  lemma RootReachable(items: seq<Item>, x: int)
    requires 0 <= x < |items| && IsWorkspaceRoot(items[x])
    ensures Reachable(items, x)
  {
    assert ValidPath(items, [x]) && [x][|[x]| - 1] == x;
  }

  lemma ChildReachable(items: seq<Item>, z: int, x: int)
    requires Reachable(items, z)
    requires 0 <= z < |items| && 0 <= x < |items| && GetParentId(items[x]) == Some(items[z].Id())
    ensures Reachable(items, x)
  {
    var p: seq<int> :| ValidPath(items, p) && p[|p| - 1] == z;
    PathExtend(items, p, x);
    var q := p + [x];
    assert ValidPath(items, q) && q[|q| - 1] == x;
  }

  lemma {:induction false} KeyedReachable(items: seq<Item>, m: map<string, string>, x: int)
    requires Inv(items, m, m.Values)
    requires Keyed(items, m, x)
    ensures Reachable(items, x)
    decreases |m[items[x].Id()]|
  {
    assert SlugAssigned(items, m, x);
    if IsWorkspaceRoot(items[x]) {
      RootReachable(items, x);
    } else {
      var pid := GetParentId(items[x]).value;
      assert pid in Ids(items);
      var z :| 0 <= z < |items| && items[z].Id() == pid;
      SuffixIsLonger(m, m[pid], SanitizeSlug(ExtractTitle(items[x])), m[items[x].Id()]);
      KeyedReachable(items, m, z);
      ChildReachable(items, z, x);
    }
  }

  /** Every slug is an absolute path: a workspace root's starts with `/`, and every other slug
      extends its parent's. */
  lemma {:induction false} SlugIsAbsolute(items: seq<Item>, m: map<string, string>, x: int)
    requires m.Keys <= Ids(items)
    requires forall z {:trigger Keyed(items, m, z)} :: Keyed(items, m, z) ==> SlugAssigned(items, m, z)
    requires Keyed(items, m, x)
    ensures StartsWith(m[items[x].Id()], "/")
    decreases |m[items[x].Id()]|
  {
    assert SlugAssigned(items, m, x);
    var base := SanitizeSlug(ExtractTitle(items[x]));
    var parentSlug := if IsWorkspaceRoot(items[x]) then "" else m[GetParentId(items[x]).value];
    var n: nat :| m[items[x].Id()] == SlugPath(parentSlug, base, n);
    var tail := Candidate(base, n);
    assert m[items[x].Id()] == parentSlug + "/" + tail;
    if !IsWorkspaceRoot(items[x]) {
      var pid := GetParentId(items[x]).value;
      assert pid in Ids(items);
      var z :| 0 <= z < |items| && items[z].Id() == pid;
      SlugIsAbsolute(items, m, z);
      assert parentSlug[..1] == "/";
    }
    assert (parentSlug + "/" + tail)[..1] == "/";
  }

  /** The map's keys are exactly the ids of the items reachable from a workspace root. */
  lemma KeyedIffReachable(items: seq<Item>, m: map<string, string>)
    requires Inv(items, m, m.Values)
    requires forall x {:trigger ChildAt(items, None, x)} :: ChildAt(items, None, x) ==> Keyed(items, m, x)
    requires forall x {:trigger NewParentAt(items, map[], m, x)} :: NewParentAt(items, map[], m, x) ==> Keyed(items, m, x)
    ensures forall x :: 0 <= x < |items| ==> (items[x].Id() in m <==> Reachable(items, x))
    ensures forall x :: 0 <= x < |items| && items[x].Id() in m ==> SlugAssigned(items, m, x)
  {
    forall x | 0 <= x < |items| ensures items[x].Id() in m <==> Reachable(items, x) {
      if items[x].Id() in m {
        KeyedReachable(items, m, x);
      }
      if Reachable(items, x) {
        var p: seq<int> :| ValidPath(items, p) && p[|p| - 1] == x;
        PathKeyed(items, m, p);
      }
    }
    forall x | 0 <= x < |items| && items[x].Id() in m ensures SlugAssigned(items, m, x) {
      assert Keyed(items, m, x);
    }
  }

  // ---------------------------------------------------------------- an example

  /** A page at the workspace level whose only property is a one-fragment title. */
  function RootPage(id: string, title: string): Page {
    Page(id, WorkspaceParent, [Property("title", TitleValue([Span(title, Annotations(false, false, false, false), None)]))],
         "", false, "", "")
  }

  lemma RootPageSlugBase(id: string, title: string)
    requires title != ""
    ensures IsWorkspaceRoot(PageItem(RootPage(id, title)))
    ensures ExtractTitle(PageItem(RootPage(id, title))) == title
  {
  }

  lemma NotesSanitized()
    ensures SanitizeSlug("Notes") == "notes" && SanitizeSlug("notes") == "notes"
  {
    assert LowerCase("Notes") == "notes";
    assert LowerCase("notes") == "notes";
    assert IsSlugComponent("notes");
    SanitizeFixesComponents("notes");
  }

  /** Three workspace pages titled `Notes`, `notes` and `Notes` get `/notes`, `/notes-1` and
      `/notes-2`, in page order. */
  method SameTitleRoots() returns (slugMap: map<string, string>)
    ensures slugMap == map["a" := "/notes", "b" := "/notes-1", "c" := "/notes-2"]
  {
    var pages := [RootPage("a", "Notes"), RootPage("b", "notes"), RootPage("c", "Notes")];
    var items := AllItems(pages, []);
    assert items == [PageItem(pages[0]), PageItem(pages[1]), PageItem(pages[2])];
    NotesItems(items);
    ThreeDistinct(items);
    slugMap := GenerateSlugs(pages, []);
    SameTitleRootsSlugs(items, slugMap);
    NotesPaths();
    MapOfThree(slugMap, "/notes", "/notes-1", "/notes-2");
  }

  lemma ThreeDistinct(items: seq<Item>)
    requires |items| == 3 && items[0].Id() == "a" && items[1].Id() == "b" && items[2].Id() == "c"
    ensures DistinctIds(items)
  {
  }

  lemma MapOfThree(m: map<string, string>, a: string, b: string, c: string)
    requires m.Keys == {"a", "b", "c"} && m["a"] == a && m["b"] == b && m["c"] == c
    ensures m == map["a" := a, "b" := b, "c" := c]
  {
  }

  lemma NotesItems(items: seq<Item>)
    requires items == [PageItem(RootPage("a", "Notes")), PageItem(RootPage("b", "notes")), PageItem(RootPage("c", "Notes"))]
    ensures items[0].Id() == "a" && items[1].Id() == "b" && items[2].Id() == "c"
    ensures IsWorkspaceRoot(items[0]) && SanitizeSlug(ExtractTitle(items[0])) == "notes"
    ensures IsWorkspaceRoot(items[1]) && SanitizeSlug(ExtractTitle(items[1])) == "notes"
    ensures IsWorkspaceRoot(items[2]) && SanitizeSlug(ExtractTitle(items[2])) == "notes"
  {
    NotesSanitized();
    RootPageSlugBase("a", "Notes");
    RootPageSlugBase("b", "notes");
    RootPageSlugBase("c", "Notes");
  }

  /** The three paths of the example. */
  lemma NotesPaths()
    ensures SlugPath("", "notes", 0) == "/notes"
    ensures SlugPath("", "notes", 1) == "/notes-1"
    ensures SlugPath("", "notes", 2) == "/notes-2"
  {
    assert NatToString(1) == "1" && NatToString(2) == "2";
  }

  lemma SameTitleRootsSlugs(items: seq<Item>, m: map<string, string>)
    requires |items| == 3 && items[0].Id() == "a" && items[1].Id() == "b" && items[2].Id() == "c"
    requires IsWorkspaceRoot(items[0]) && SanitizeSlug(ExtractTitle(items[0])) == "notes"
    requires IsWorkspaceRoot(items[1]) && SanitizeSlug(ExtractTitle(items[1])) == "notes"
    requires IsWorkspaceRoot(items[2]) && SanitizeSlug(ExtractTitle(items[2])) == "notes"
    requires m.Keys <= Ids(items)
    requires forall x :: 0 <= x < |items| ==> (items[x].Id() in m <==> Reachable(items, x))
    requires forall x :: 0 <= x < |items| && items[x].Id() in m ==> SlugAssigned(items, m, x)
    requires SuffixesInOrder(items, m)
    ensures m.Keys == {"a", "b", "c"}
    ensures m["a"] == SlugPath("", "notes", 0) && m["b"] == SlugPath("", "notes", 1) && m["c"] == SlugPath("", "notes", 2)
  {
    var base := "notes";
    RootReachable(items, 0);
    RootReachable(items, 1);
    RootReachable(items, 2);
    KeysOfThree(items, m);
    var n0 := RootSuffix(items, m, 0);
    var n1 := RootSuffix(items, m, 1);
    var n2 := RootSuffix(items, m, 2);
    SuffixOrdered(items, m, 0, 1, n0, n1);
    SuffixOrdered(items, m, 1, 2, n1, n2);
    FirstThreeCandidates(m, base, n0, n1, n2);
  }

  /** Three slugs whose candidate indices increase, each the first free one, are the first three
      candidates. */
  lemma FirstThreeCandidates(m: map<string, string>, base: string, n0: nat, n1: nat, n2: nat)
    requires m.Keys == {"a", "b", "c"}
    requires m["a"] == SlugPath("", base, n0) && m["b"] == SlugPath("", base, n1) && m["c"] == SlugPath("", base, n2)
    requires n0 < n1 < n2
    requires forall j: nat :: j < n0 ==> SlugPath("", base, j) in m.Values
    requires forall j: nat :: j < n1 ==> SlugPath("", base, j) in m.Values
    requires forall j: nat :: j < n2 ==> SlugPath("", base, j) in m.Values
    ensures n0 == 0 && n1 == 1 && n2 == 2
  {
    if n0 > 0 {
      UsedAmongThree(m, base, n0, n1, n2, 0);
      assert false;
    }
    if n1 > 1 {
      UsedAmongThree(m, base, n0, n1, n2, 1);
      assert false;
    }
    if n2 > 2 {
      UsedAmongThree(m, base, n0, n1, n2, 2);
      assert false;
    }
  }

  lemma KeysOfThree(items: seq<Item>, m: map<string, string>)
    requires |items| == 3 && items[0].Id() == "a" && items[1].Id() == "b" && items[2].Id() == "c"
    requires m.Keys <= Ids(items) && "a" in m && "b" in m && "c" in m
    ensures m.Keys == {"a", "b", "c"}
  {
    forall k | k in m ensures k == "a" || k == "b" || k == "c" {
      assert k in Ids(items);
      var i :| 0 <= i < |items| && items[i].Id() == k;
      assert i == 0 || i == 1 || i == 2;
    }
  }

  /** The candidate index of workspace page `items[x]` titled like `notes`. */
  lemma RootSuffix(items: seq<Item>, m: map<string, string>, x: int) returns (n: nat)
    requires 0 <= x < |items| && IsWorkspaceRoot(items[x]) && SanitizeSlug(ExtractTitle(items[x])) == "notes"
    requires SlugAssigned(items, m, x)
    ensures m[items[x].Id()] == SlugPath("", "notes", n)
    ensures forall j: nat :: j < n ==> SlugPath("", "notes", j) in m.Values
  {
    n :| m[items[x].Id()] == SlugPath("", "notes", n) && forall j: nat :: j < n ==> SlugPath("", "notes", j) in m.Values;
  }

  /** Of two workspace pages titled like `notes`, the earlier one has the smaller index. */
  lemma SuffixOrdered(items: seq<Item>, m: map<string, string>, x: int, y: int, nx: nat, ny: nat)
    requires SuffixesInOrder(items, m)
    requires 0 <= x < y < |items| && IsWorkspaceRoot(items[x]) && IsWorkspaceRoot(items[y])
    requires SanitizeSlug(ExtractTitle(items[x])) == "notes" && SanitizeSlug(ExtractTitle(items[y])) == "notes"
    requires Keyed(items, m, x) && Keyed(items, m, y)
    requires m[items[x].Id()] == SlugPath("", "notes", nx) && m[items[y].Id()] == SlugPath("", "notes", ny)
    ensures nx < ny
  {
    assert SameTitleSiblings(items, None, x, y);
    var i: nat, j: nat :| i < j && m[items[x].Id()] == SlugPath("", "notes", i) && m[items[y].Id()] == SlugPath("", "notes", j);
    SlugPathInjective("", "notes", i, nx);
    SlugPathInjective("", "notes", j, ny);
  }

  /** With three slugs, a used candidate is one of theirs. */
  lemma UsedAmongThree(m: map<string, string>, base: string, n0: nat, n1: nat, n2: nat, j: nat)
    requires m.Keys == {"a", "b", "c"}
    requires m["a"] == SlugPath("", base, n0) && m["b"] == SlugPath("", base, n1) && m["c"] == SlugPath("", base, n2)
    requires SlugPath("", base, j) in m.Values
    ensures j == n0 || j == n1 || j == n2
  {
    var k :| k in m && m[k] == SlugPath("", base, j);
    SlugPathInjective("", base, j, n0);
    SlugPathInjective("", base, j, n1);
    SlugPathInjective("", base, j, n2);
  }
}
