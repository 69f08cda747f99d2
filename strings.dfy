/** The JavaScript string operations the indexing code relies on, over `seq<char>`. */
module Strings {
  import opened Wrappers

  /** The code points JavaScript's `\s` matches and `String.prototype.trim` removes:
      WhiteSpace and LineTerminator of ECMA-262. */
  predicate IsSpace(c: char) {
    || c == '\t' || c == '\n' || c == '\U{000B}' || c == '\U{000C}' || c == '\r' || c == ' '
    || c == '\U{00A0}' || c == '\U{1680}' || ('\U{2000}' <= c <= '\U{200A}')
    || c == '\U{2028}' || c == '\U{2029}' || c == '\U{202F}' || c == '\U{205F}'
    || c == '\U{3000}' || c == '\U{FEFF}'
  }

  predicate NoSpace(s: string) {
    forall i :: 0 <= i < |s| ==> !IsSpace(s[i])
  }

  predicate AllSpace(s: string) {
    forall i :: 0 <= i < |s| ==> IsSpace(s[i])
  }

  predicate StartsWith(s: string, prefix: string) {
    |prefix| <= |s| && s[..|prefix|] == prefix
  }

  predicate EndsWith(s: string, suffix: string) {
    |suffix| <= |s| && s[|s| - |suffix|..] == suffix
  }

  function TrimStart(s: string): (r: string)
    ensures |r| <= |s| && r == s[|s| - |r|..]
    ensures r == [] || !IsSpace(r[0])
    ensures AllSpace(s[..|s| - |r|])
  {
    if s != [] && IsSpace(s[0]) then TrimStart(s[1..]) else s
  }

  function TrimEnd(s: string): (r: string)
    ensures |r| <= |s| && r == s[..|r|]
    ensures r == [] || !IsSpace(r[|r| - 1])
    ensures AllSpace(s[|r|..])
  {
    if s != [] && IsSpace(s[|s| - 1]) then TrimEnd(s[..|s| - 1]) else s
  }

  /** `String.prototype.trim`. */
  function Trim(s: string): string {
    TrimEnd(TrimStart(s))
  }

  lemma TrimEmptyIffAllSpace(s: string)
    ensures Trim(s) == [] <==> AllSpace(s)
  {
    var t := TrimStart(s);
    if Trim(s) == [] {
      assert t == [];
      assert s[..|s|] == s;
    }
  }

  /** `String.prototype.split` with a one-character separator. */
  function Split(s: string, sep: char): (parts: seq<string>)
    ensures |parts| >= 1
    ensures forall i :: 0 <= i < |parts| ==> sep !in parts[i]
  {
    if s == [] then [""]
    else
      var rest := Split(s[1..], sep);
      if s[0] == sep then [""] + rest else [[s[0]] + rest[0]] + rest[1..]
  }

  /** `Array.prototype.join`. */
  function Join(parts: seq<string>, sep: string): string {
    if |parts| == 0 then ""
    else if |parts| == 1 then parts[0]
    else parts[0] + sep + Join(parts[1..], sep)
  }

  /** A join starts with its first part. */
  lemma JoinFirst(parts: seq<string>, sep: string)
    requires parts != []
    ensures StartsWith(Join(parts, sep), parts[0])
  {
  }

  /** The parts that are not the empty string, in order (`.filter(Boolean)` on strings). */
  function NonEmpty(parts: seq<string>): (r: seq<string>)
    ensures |r| <= |parts|
    ensures forall i :: 0 <= i < |r| ==> r[i] != "" && r[i] in parts
  {
    if parts == [] then []
    else if parts[0] == "" then NonEmpty(parts[1..])
    else [parts[0]] + NonEmpty(parts[1..])
  }

  lemma NonEmptyAppend(a: seq<string>, b: seq<string>)
    ensures NonEmpty(a + b) == NonEmpty(a) + NonEmpty(b)
  {
    if a != [] {
      assert (a + b)[0] == a[0] && (a + b)[1..] == a[1..] + b;
      NonEmptyAppend(a[1..], b);
    } else {
      assert a + b == b;
    }
  }

  lemma JoinAppendOne(parts: seq<string>, x: string, sep: string)
    ensures Join(parts + [x], sep) == if parts == [] then x else Join(parts, sep) + sep + x
  {
    if |parts| > 1 {
      assert (parts + [x])[1..] == parts[1..] + [x];
      JoinAppendOne(parts[1..], x, sep);
    }
  }

  lemma {:induction false} JoinSplit(s: string, sep: char)
    ensures Join(Split(s, sep), [sep]) == s
  {
    if s != [] {
      var rest := Split(s[1..], sep);
      JoinSplit(s[1..], sep);
      assert s == [s[0]] + s[1..];
      if s[0] == sep {
        assert ([""] + rest)[1..] == rest;
      } else if |rest| > 1 {
        assert Split(s, sep)[1..] == rest[1..];
        assert Join(rest, [sep]) == rest[0] + [sep] + Join(rest[1..], [sep]);
      }
    }
  }

  lemma {:induction false} SplitWithout(s: string, sep: char)
    requires sep !in s
    ensures Split(s, sep) == [s]
  {
    if s != [] {
      assert s[0] != sep && sep !in s[1..];
      SplitWithout(s[1..], sep);
      assert [s[0]] + s[1..] == s;
    }
  }

  lemma {:induction false} SplitConcat(a: string, sep: char, b: string)
    requires sep !in a
    ensures Split(a + [sep] + b, sep) == [a] + Split(b, sep)
  {
    var s := a + [sep] + b;
    if a != [] {
      assert s[0] == a[0] && s[1..] == a[1..] + [sep] + b;
      SplitConcat(a[1..], sep, b);
      assert [a[0]] + a[1..] == a;
    } else {
      assert s[0] == sep && s[1..] == b;
    }
  }

  /** A trailing separator adds one empty part. */
  lemma {:induction false} SplitTrailingSep(s: string, sep: char)
    ensures Split(s + [sep], sep) == Split(s, sep) + [""]
  {
    if s == [] {
      assert [sep][1..] == [];
    } else {
      SplitTrailingSep(s[1..], sep);
      assert (s + [sep])[1..] == s[1..] + [sep];
    }
  }

  lemma {:induction false} SplitJoin(parts: seq<string>, sep: char)
    requires |parts| >= 1
    requires forall i :: 0 <= i < |parts| ==> sep !in parts[i]
    ensures Split(Join(parts, [sep]), sep) == parts
  {
    if |parts| == 1 {
      SplitWithout(parts[0], sep);
    } else {
      SplitJoin(parts[1..], sep);
      SplitConcat(parts[0], sep, Join(parts[1..], [sep]));
    }
  }

  /** `String.prototype.split(/\s+/)`: cut at every maximal run of white space. */
  function SplitOnSpaceRuns(s: string): (parts: seq<string>)
    ensures |parts| >= 1
    ensures forall i :: 0 <= i < |parts| ==> NoSpace(parts[i])
  {
    if s == [] then [""]
    else
      var rest := SplitOnSpaceRuns(s[1..]);
      if IsSpace(s[0]) then
        (if |s| > 1 && IsSpace(s[1]) then rest else [""] + rest)
      else
        [[s[0]] + rest[0]] + rest[1..]
  }

  /** The maximal runs of non-space characters: `split(/\s+/).filter(t => t.length > 0)`. */
  function Words(s: string): (w: seq<string>)
    ensures forall i :: 0 <= i < |w| ==> w[i] != "" && NoSpace(w[i])
  {
    NonEmpty(SplitOnSpaceRuns(s))
  }

  /** A string has no words exactly when it is blank, i.e. when `trim()` empties it. */
  lemma {:induction false} WordsEmptyIffBlank(s: string)
    ensures Words(s) == [] <==> AllSpace(s)
  {
    if s != [] {
      WordsEmptyIffBlank(s[1..]);
      var rest := SplitOnSpaceRuns(s[1..]);
      if IsSpace(s[0]) {
        if |s| > 1 && IsSpace(s[1]) {
        } else {
          assert NonEmpty([""] + rest) == NonEmpty(rest) by {
            assert ([""] + rest)[1..] == rest;
          }
        }
        if AllSpace(s[1..]) {
          assert AllSpace(s) by {
            forall i | 0 <= i < |s| ensures IsSpace(s[i]) {
              if i > 0 { assert s[i] == s[1..][i - 1]; }
            }
          }
        }
        if AllSpace(s) {
          assert AllSpace(s[1..]);
        }
      } else {
        assert NonEmpty(SplitOnSpaceRuns(s))[0] == [s[0]] + rest[0];
      }
    }
  }

  function DigitChar(d: nat): (c: char)
    requires d < 10
    ensures '0' <= c <= '9'
  {
    ('0' as int + d) as char
  }

  predicate IsDigits(s: string) {
    forall i :: 0 <= i < |s| ==> '0' <= s[i] <= '9'
  }

  /** Decimal rendering of a natural number (`String(n)`, template `${n}`). */
  function NatToString(n: nat): (s: string)
    ensures |s| >= 1 && IsDigits(s)
  {
    if n < 10 then [DigitChar(n)] else NatToString(n / 10) + [DigitChar(n % 10)]
  }

  function ParseNat(s: string): nat
    requires IsDigits(s)
  {
    if s == [] then 0 else 10 * ParseNat(s[..|s| - 1]) + (s[|s| - 1] as int - '0' as int)
  }

  lemma {:induction false} ParseNatToString(n: nat)
    ensures ParseNat(NatToString(n)) == n
  {
    if n >= 10 {
      var s := NatToString(n);
      assert s[..|s| - 1] == NatToString(n / 10);
      ParseNatToString(n / 10);
    }
  }

  lemma NatToStringInjective(a: nat, b: nat)
    ensures NatToString(a) == NatToString(b) ==> a == b
  {
    ParseNatToString(a);
    ParseNatToString(b);
  }

  predicate OccursAt(s: string, pattern: string, k: nat) {
    k + |pattern| <= |s| && s[k..k + |pattern|] == pattern
  }

  /** The first position at or after `from` where `pattern` occurs in `s`. */
  function IndexOfFrom(s: string, pattern: string, from: nat): (r: Option<nat>)
    requires from <= |s|
    ensures r.Some? ==> from <= r.value && OccursAt(s, pattern, r.value)
    ensures r.Some? ==> forall k: nat :: from <= k < r.value ==> !OccursAt(s, pattern, k)
    ensures r.None? ==> forall k: nat :: from <= k ==> !OccursAt(s, pattern, k)
    decreases |s| - from
  {
    if from + |pattern| > |s| then None
    else if OccursAt(s, pattern, from) then Some(from)
    else IndexOfFrom(s, pattern, from + 1)
  }

  /** The replacement text `String.prototype.replace` inserts for a string pattern (GetSubstitution
      of ECMA-262 with no capture groups): `$$`, `$&`, `` $` `` and `$'` are expanded, anything else
      is literal. */
  function Substitute(replacement: string, matched: string, before: string, after: string): string
    decreases |replacement|
  {
    if replacement == [] then []
    else if |replacement| >= 2 && replacement[0] == '$' && replacement[1] in "$&`'" then
      var expansion :=
        if replacement[1] == '$' then "$"
        else if replacement[1] == '&' then matched
        else if replacement[1] == '`' then before
        else after;
      expansion + Substitute(replacement[2..], matched, before, after)
    else [replacement[0]] + Substitute(replacement[1..], matched, before, after)
  }

  lemma {:induction false} SubstituteLiteral(replacement: string, matched: string, before: string, after: string)
    requires '$' !in replacement
    ensures Substitute(replacement, matched, before, after) == replacement
  {
    if replacement != [] {
      SubstituteLiteral(replacement[1..], matched, before, after);
    }
  }

  /** `s.replace(pattern, replacement)` with a string pattern: only the first occurrence. */
  function ReplaceFirst(s: string, pattern: string, replacement: string): string {
    match IndexOfFrom(s, pattern, 0)
    case None => s
    case Some(k) =>
      s[..k] + Substitute(replacement, pattern, s[..k], s[k + |pattern|..]) + s[k + |pattern|..]
  }

  /** When `s` starts with the pattern, `replace` rewrites that leading occurrence, with the
      replacement's `$` patterns expanded against an empty text before it. */
  lemma ReplaceAtStart(s: string, pattern: string, replacement: string)
    requires StartsWith(s, pattern)
    ensures ReplaceFirst(s, pattern, replacement)
         == Substitute(replacement, pattern, "", s[|pattern|..]) + s[|pattern|..]
  {
    assert s[..0] == "";
    assert IndexOfFrom(s, pattern, 0) == Some(0);
  }

  /** When `s` starts with the pattern, `replace` rewrites exactly that leading occurrence. */
  lemma ReplaceLeading(s: string, pattern: string, replacement: string)
    requires StartsWith(s, pattern)
    requires '$' !in replacement
    ensures ReplaceFirst(s, pattern, replacement) == replacement + s[|pattern|..]
  {
    var after := s[|pattern|..];
    SubstituteLiteral(replacement, pattern, s[..0], after);
    assert IndexOfFrom(s, pattern, 0) == Some(0);
  }

  // ---------------------------------------------------------------- line-oriented text

  /** Each line followed by a line break. */
  function Lines(lines: seq<string>): string {
    if lines == [] then "" else lines[0] + "\n" + Lines(lines[1..])
  }

  lemma Assoc(a: string, b: string, c: string)
    ensures (a + b) + c == a + (b + c)
  {
  }

  /** Lines written one after another. */
  lemma {:induction false} LinesAppend(a: seq<string>, b: seq<string>)
    ensures Lines(a + b) == Lines(a) + Lines(b)
  {
    if a != [] {
      LinesAppend(a[1..], b);
      assert (a + b)[1..] == a[1..] + b;
      Assoc(a[0] + "\n", Lines(a[1..]), Lines(b));
    } else {
      assert a + b == b;
    }
  }

  lemma ConsAppend<T>(s: seq<T>, t: seq<T>)
    requires s != []
    ensures s + t == [s[0]] + (s[1..] + t)
  {
    assert s == [s[0]] + s[1..];
  }

  lemma LinesCons(lines: seq<string>, tail: string)
    requires lines != []
    ensures Lines(lines) + tail == lines[0] + ['\n'] + (Lines(lines[1..]) + tail)
  {
    Assoc(lines[0] + "\n", Lines(lines[1..]), tail);
  }

  /** With no line break inside any line, splitting at line breaks gives the lines back. */
  lemma {:induction false} SplitLines(lines: seq<string>, tail: string)
    requires forall i :: 0 <= i < |lines| ==> '\n' !in lines[i]
    ensures Split(Lines(lines) + tail, '\n') == lines + Split(tail, '\n')
  {
    if lines != [] {
      var rest := Lines(lines[1..]) + tail;
      var after := Split(tail, '\n');
      assert Split(rest, '\n') == lines[1..] + after by {
        SplitLines(lines[1..], tail);
      }
      assert Lines(lines) + tail == lines[0] + ['\n'] + rest by {
        LinesCons(lines, tail);
      }
      assert Split(lines[0] + ['\n'] + rest, '\n') == [lines[0]] + Split(rest, '\n') by {
        SplitConcat(lines[0], '\n', rest);
      }
      assert lines + after == [lines[0]] + (lines[1..] + after) by {
        ConsAppend(lines, after);
      }
    } else {
      assert Lines(lines) + tail == tail;
    }
  }
}
