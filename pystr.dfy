/** Python `str` operations the application relies on, over `string` (a sequence
    of Unicode scalar values): `strip()`, `in`, `replace(w, '')`, ASCII `lower()`,
    `startswith` and slicing `s[:n]`. */
module PyStr {

  /** The characters for which Python's `str.isspace()` holds. Both `str.strip()`
      without arguments and the regular-expression class `\s` use this set. */
  predicate IsSpace(c: char) {
    || (c <= ' ' && (c == ' ' || ('\t' <= c <= '\r') || ('\U{1C}' <= c <= '\U{1F}')))
    || c == '\U{85}' || c == '\U{A0}'
    || ('\U{1680}' <= c <= '\U{3000}' &&
        (|| c == '\U{1680}' || ('\U{2000}' <= c <= '\U{200A}')
         || c == '\U{2028}' || c == '\U{2029}' || c == '\U{202F}' || c == '\U{205F}' || c == '\U{3000}'))
  }

  /** No whitespace at either end. */
  predicate IsTrimmed(s: string) {
    s == [] || (!IsSpace(s[0]) && !IsSpace(s[|s| - 1]))
  }

  /** Every character of `s` is whitespace. */
  predicate AllSpace(s: string) {
    forall i :: 0 <= i < |s| ==> IsSpace(s[i])
  }

  /** The first index at or after `i` that holds no whitespace (`|s|` if none). */
  function SpaceEnd(s: string, i: nat): (j: nat)
    requires i <= |s|
    ensures i <= j <= |s|
    ensures forall k :: i <= k < j ==> IsSpace(s[k])
    ensures j < |s| ==> !IsSpace(s[j])
    decreases |s| - i
  {
    if i < |s| && IsSpace(s[i]) then SpaceEnd(s, i + 1) else i
  }

  /** The index just after the last non-whitespace character below `j`, or `lo`
      when everything from `lo` to `j` is whitespace. */
  function SpaceStart(s: string, lo: nat, j: nat): (i: nat)
    requires lo <= j <= |s|
    ensures lo <= i <= j
    ensures forall k :: i <= k < j ==> IsSpace(s[k])
    ensures lo < i ==> !IsSpace(s[i - 1])
    decreases j
  {
    if lo < j && IsSpace(s[j - 1]) then SpaceStart(s, lo, j - 1) else j
  }

  /** `s.lstrip()`: drops the whitespace prefix, and only that. */
  function LStrip(s: string): (r: string)
    ensures |r| <= |s| && r == s[|s| - |r|..]
    ensures r == [] || !IsSpace(r[0])
    ensures forall k :: 0 <= k < |s| - |r| ==> IsSpace(s[k])
  {
    s[SpaceEnd(s, 0)..]
  }

  /** Index in `s` where `s.strip()` begins. */
  function StripStart(s: string): (i: nat)
    ensures i <= |s|
  {
    SpaceEnd(s, 0)
  }

  /** Index in `s` where `s.strip()` ends. */
  function StripEnd(s: string): (j: nat)
    ensures StripStart(s) <= j <= |s|
  {
    SpaceStart(s, StripStart(s), |s|)
  }

  /** `s.strip()`: the infix of `s` left after removing leading and trailing
      whitespace; everything removed is whitespace. */
  function Strip(s: string): (r: string)
    ensures IsTrimmed(r)
    ensures StripStart(s) + |r| <= |s|
    ensures r == s[StripStart(s)..StripStart(s) + |r|]
    ensures forall k :: 0 <= k < StripStart(s) ==> IsSpace(s[k])
    ensures forall k :: StripStart(s) + |r| <= k < |s| ==> IsSpace(s[k])
  {
    s[StripStart(s)..StripEnd(s)]
  }

  /** A string strips to nothing exactly when it is all whitespace. */
  lemma StripEmpty(s: string)
    ensures Strip(s) == [] <==> AllSpace(s)
  {
    if AllSpace(s) {
      assert StripStart(s) == |s|;
    }
  }

  lemma StripTrimmed(s: string)
    requires IsTrimmed(s)
    ensures Strip(s) == s
  {
  }

  /** Python's `needle in hay`: `needle` occurs as a contiguous block of `hay`.
      The empty string occurs in every string. */
  predicate Contains(hay: string, needle: string)
    decreases |hay|
  {
    needle <= hay || (hay != [] && Contains(hay[1..], needle))
  }

  /** Whatever stands around `needle`, it is still found. */
  lemma {:induction false} ContainsInfix(before: string, needle: string, after: string)
    ensures Contains(before + needle + after, needle)
    decreases |before|
  {
    if before == [] {
      assert before + needle + after == needle + after;
    } else {
      ContainsInfix(before[1..], needle, after);
      assert (before + needle + after)[1..] == before[1..] + needle + after;
    }
  }

  /** `needle` sits in `hay` starting at index `i`. */
  predicate OccursAt(hay: string, needle: string, i: int) {
    0 <= i && i + |needle| <= |hay| && hay[i..i + |needle|] == needle
  }

  /** `needle in hay` holds exactly when `needle` sits at some index of `hay`. */
  lemma {:induction false} ContainsAt(hay: string, needle: string)
    ensures Contains(hay, needle) <==> exists i :: OccursAt(hay, needle, i)
    decreases |hay|
  {
    if needle <= hay {
      assert OccursAt(hay, needle, 0);
    }
    if hay != [] {
      var tail := hay[1..];
      ContainsAt(tail, needle);
      if Contains(tail, needle) {
        var i :| OccursAt(tail, needle, i);
        assert hay[i + 1..i + 1 + |needle|] == tail[i..i + |needle|];
        assert OccursAt(hay, needle, i + 1);
      }
      if exists i :: OccursAt(hay, needle, i) {
        var i :| OccursAt(hay, needle, i);
        if i > 0 {
          assert tail[i - 1..i - 1 + |needle|] == hay[i..i + |needle|];
          assert OccursAt(tail, needle, i - 1);
        } else {
          assert needle <= hay;
        }
      }
    }
  }

  /** A needle whose first character does not occur in `hay` is not in it. */
  lemma {:induction false} AbsentHead(hay: string, needle: string)
    requires needle != [] && needle[0] !in hay
    ensures !Contains(hay, needle)
    decreases |hay|
  {
    if hay != [] {
      assert needle[0] !in hay[1..] by {
        forall c | c in hay[1..] ensures c in hay { }
      }
      AbsentHead(hay[1..], needle);
    }
  }

  /** Lower-casing leaves a string without ASCII capitals unchanged. */
  lemma LowerKeeps(s: string)
    requires forall i :: 0 <= i < |s| ==> !('A' <= s[i] <= 'Z')
    ensures ToLower(s) == s
  {
  }

  /** `s.startswith(p)`. */
  predicate StartsWith(s: string, p: string) {
    p <= s
  }

  /** `s.replace(w, '')` for a non-empty `w`: scanning left to right, every
      non-overlapping occurrence of `w` is cut out. Cutting can bring two halves
      of a new occurrence together, which is then kept; a one-character `w`,
      however, is gone for good. */
  function RemoveAll(s: string, w: string): (r: string)
    requires w != []
    ensures |r| <= |s|
    ensures forall i :: 0 <= i < |r| ==> r[i] in s
    ensures |w| == 1 ==> w[0] !in r
    decreases |s|
  {
    if |s| < |w| then s
    else if w <= s then RemoveAll(s[|w|..], w)
    else
      var rest := RemoveAll(s[1..], w);
      assert forall i :: 0 <= i < |rest| ==> rest[i] in s by {
        forall i | 0 <= i < |rest| ensures rest[i] in s {
          assert rest[i] in s[1..];
        }
      }
      assert |w| == 1 ==> s[0] != w[0];
      [s[0]] + rest
  }

  /** Python's `c.lower()` on ASCII letters; every other character is kept. */
  function LowerChar(c: char): char {
    if 'A' <= c <= 'Z' then (c as int + 32) as char else c
  }

  /** `s.lower()`, ASCII letters only. */
  function ToLower(s: string): (r: string)
    ensures |r| == |s|
    ensures forall i :: 0 <= i < |s| ==> r[i] == LowerChar(s[i])
  {
    if s == [] then [] else [LowerChar(s[0])] + ToLower(s[1..])
  }

  function Min(a: int, b: int): int {
    if a <= b then a else b
  }

  /** Python's `s[:n]` for `n >= 0` (and pandas' `head(n)`). */
  function Take<T>(s: seq<T>, n: nat): (r: seq<T>)
    ensures |r| == Min(n, |s|) && r <= s
  {
    if n <= |s| then s[..n] else s
  }
}
