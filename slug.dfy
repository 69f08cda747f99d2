/** `sanitizeSlug`: the title-to-path-component normaliser of the slug resolver, as its five
    chained `replace` steps. */
module Slug {
  import opened Strings

  predicate IsAlnum(c: char) {
    'a' <= c <= 'z' || '0' <= c <= '9'
  }

  predicate IsSlugChar(c: char) {
    IsAlnum(c) || c == '-'
  }

  predicate AllSlugChars(s: string) {
    forall i :: 0 <= i < |s| ==> IsSlugChar(s[i])
  }

  /** Characters that survive `/[^a-z0-9\s-]/g`. */
  predicate AllKept(s: string) {
    forall i :: 0 <= i < |s| ==> IsSlugChar(s[i]) || IsSpace(s[i])
  }

  predicate NoDoubleDash(s: string) {
    forall i :: 0 <= i < |s| - 1 ==> !(s[i] == '-' && s[i + 1] == '-')
  }

  /** What `sanitizeSlug` promises of its output. */
  predicate IsSlugComponent(s: string) {
    && AllSlugChars(s)
    && NoDoubleDash(s)
    && (s == [] || (s[0] != '-' && s[|s| - 1] != '-'))
  }

  function LowerChar(c: char): char {
    if 'A' <= c <= 'Z' then (c as int + 32) as char else c
  }

  /** Step 1, `toLowerCase()`, on the ASCII letters. */
  function LowerCase(s: string): (r: string)
    ensures |r| == |s|
    ensures forall i :: 0 <= i < |s| ==> r[i] == LowerChar(s[i])
  {
    seq(|s|, i requires 0 <= i < |s| => LowerChar(s[i]))
  }

  /** Lower-casing leaves no upper-case ASCII letter, maps each one to its lower-case partner
      ('A' to 'a', ...), leaves every other character in place, and is idempotent. */
  lemma LowerCaseMeaning(s: string)
    ensures var r := LowerCase(s);
      && (forall i :: 0 <= i < |r| ==> !('A' <= r[i] <= 'Z'))
      && (forall i :: 0 <= i < |s| && 'A' <= s[i] <= 'Z' ==> 'a' <= r[i] <= 'z' && r[i] as int - s[i] as int == 'a' as int - 'A' as int)
      && (forall i :: 0 <= i < |s| && !('A' <= s[i] <= 'Z') ==> r[i] == s[i])
      && LowerCase(r) == r
  {
    var r := LowerCase(s);
    assert LowerCase(r) == r by {
      forall i | 0 <= i < |r|
        ensures LowerCase(r)[i] == r[i]
      {
      }
    }
  }

  /** Step 2, `replace(/[^a-z0-9\s-]/g, "")`. */
  function KeepAllowed(s: string): (r: string)
    ensures AllKept(r)
    ensures AllKept(s) ==> r == s
  {
    if s == [] then []
    else if IsSlugChar(s[0]) || IsSpace(s[0]) then [s[0]] + KeepAllowed(s[1..])
    else KeepAllowed(s[1..])
  }

  /** Step 3, `replace(/\s+/g, "-")`: every maximal run of white space becomes one dash. */
  function DashSpaceRuns(s: string): (r: string)
    ensures AllKept(s) ==> AllSlugChars(r)
    ensures NoSpace(s) ==> r == s
    decreases |s|
  {
    if s == [] then []
    else if IsSpace(s[0]) then "-" + DashSpaceRuns(TrimStart(s))
    else [s[0]] + DashSpaceRuns(s[1..])
  }

  function DropDashes(s: string): (r: string)
    ensures |r| <= |s| && r == s[|s| - |r|..]
    ensures r == [] || r[0] != '-'
  {
    if s != [] && s[0] == '-' then DropDashes(s[1..]) else s
  }

  /** Step 4, `replace(/-+/g, "-")`: every maximal run of dashes becomes one dash. */
  function SquashDashes(s: string): (r: string)
    ensures NoDoubleDash(r)
    ensures s != [] ==> r != [] && r[0] == (if s[0] == '-' then '-' else s[0])
    decreases |s|
  {
    if s == [] then []
    else if s[0] == '-' then "-" + SquashDashes(DropDashes(s[1..]))
    else [s[0]] + SquashDashes(s[1..])
  }

  /** Squashing introduces no character that was not there. */
  lemma {:induction false} SquashKeepsSlugChars(s: string)
    requires AllSlugChars(s)
    ensures AllSlugChars(SquashDashes(s))
    decreases |s|
  {
    if s != [] {
      var t := if s[0] == '-' then DropDashes(s[1..]) else s[1..];
      assert AllSlugChars(t) by {
        forall i | 0 <= i < |t| ensures IsSlugChar(t[i]) {
          assert t[i] == s[|s| - |t| + i];
        }
      }
      SquashKeepsSlugChars(t);
      var r := SquashDashes(t);
      assert SquashDashes(s) == [s[0]] + r;
      assert IsSlugChar(s[0]);
      forall i | 0 <= i < |[s[0]] + r| ensures IsSlugChar(([s[0]] + r)[i]) {
        if i > 0 {
          assert ([s[0]] + r)[i] == r[i - 1];
        }
      }
    }
  }

  /** A string without a double dash is left alone. */
  lemma {:induction false} SquashFixes(s: string)
    requires NoDoubleDash(s)
    ensures SquashDashes(s) == s
    decreases |s|
  {
    if s != [] {
      assert NoDoubleDash(s[1..]) by {
        forall i | 0 <= i < |s[1..]| - 1 ensures !(s[1..][i] == '-' && s[1..][i + 1] == '-') {
          assert s[1..][i] == s[i + 1] && s[1..][i + 1] == s[i + 2];
        }
      }
      if s[0] == '-' && s[1..] != [] {
        assert s[1] != '-';
      }
      SquashFixes(s[1..]);
    }
  }

  /** Step 5, `replace(/^-|-$/g, "")`: one leading and one trailing dash go. */
  function TrimDashes(s: string): (r: string)
    ensures AllSlugChars(s) && NoDoubleDash(s) ==> IsSlugComponent(r)
    ensures IsSlugComponent(s) ==> r == s
  {
    var t := if s != [] && s[0] == '-' then s[1..] else s;
    if t != [] && t[|t| - 1] == '-' then t[..|t| - 1] else t
  }

  /** `sanitizeSlug`. */
  function SanitizeSlug(title: string): (slug: string)
    ensures IsSlugComponent(slug)
  {
    var spaced := DashSpaceRuns(KeepAllowed(LowerCase(title)));
    SquashKeepsSlugChars(spaced);
    TrimDashes(SquashDashes(spaced))
  }

  /** A string that already has the output shape is left alone. */
  lemma SanitizeFixesComponents(s: string)
    requires IsSlugComponent(s)
    ensures SanitizeSlug(s) == s
  {
    assert LowerCase(s) == s;
    assert AllKept(s);
    assert NoSpace(s);
    SquashFixes(s);
  }

  /** Sanitizing is idempotent. */
  lemma SanitizeIdempotent(title: string)
    ensures SanitizeSlug(SanitizeSlug(title)) == SanitizeSlug(title)
  {
    SanitizeFixesComponents(SanitizeSlug(title));
  }
}
