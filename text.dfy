/**
 * The string operations the search filters use: white-space tests, Trim,
 * ToLower and substring search. Case folding and white space are the ASCII
 * ones only.
 */
module Text {
  import opened Wrappers

  /** ASCII white space: space, tab, line feed, vertical tab, form feed, carriage return. */
  predicate IsWhiteSpace(c: char) {
    c == ' ' || ('\t' <= c <= '\r')
  }

  predicate IsBlank(s: string) {
    forall i :: 0 <= i < |s| ==> IsWhiteSpace(s[i])
  }

  /** string.IsNullOrEmpty */
  predicate IsNullOrEmpty(s: Option<string>) {
    s.None? || s.value == ""
  }

  /** string.IsNullOrWhiteSpace */
  predicate IsNullOrWhiteSpace(s: Option<string>) {
    s.None? || IsBlank(s.value)
  }

  /** The first position at or after i that does not hold white space (|s| when there is none). */
  function SkipWhiteSpace(s: string, i: nat): (j: nat)
    requires i <= |s|
    ensures i <= j <= |s|
    ensures forall k :: i <= k < j ==> IsWhiteSpace(s[k])
    ensures j < |s| ==> !IsWhiteSpace(s[j])
    decreases |s| - i
  {
    if i == |s| || !IsWhiteSpace(s[i]) then i else SkipWhiteSpace(s, i + 1)
  }

  /** The position just after the last character before j that is not white space (0 when there is none). */
  function BackOverWhiteSpace(s: string, j: nat): (k: nat)
    requires j <= |s|
    ensures k <= j
    ensures forall m :: k <= m < j ==> IsWhiteSpace(s[m])
    ensures 0 < k ==> !IsWhiteSpace(s[k - 1])
  {
    if j == 0 || !IsWhiteSpace(s[j - 1]) then j else BackOverWhiteSpace(s, j - 1)
  }

  /** Drops the leading white space: the result is the suffix that starts at the first other character. */
  function TrimStart(s: string): (r: string)
    ensures |r| <= |s| && r == s[|s| - |r|..]
    ensures IsBlank(s[..|s| - |r|])
    ensures r == [] || !IsWhiteSpace(r[0])
  {
    s[SkipWhiteSpace(s, 0)..]
  }

  /** Drops the trailing white space: the result is the prefix that ends at the last other character. */
  function TrimEnd(s: string): (r: string)
    ensures |r| <= |s| && r == s[..|r|]
    ensures IsBlank(s[|r|..])
    ensures r == [] || !IsWhiteSpace(r[|r| - 1])
  {
    s[..BackOverWhiteSpace(s, |s|)]
  }

  /** string.Trim: the contiguous middle of s between leading and trailing white space. */
  function Trim(s: string): (r: string)
    ensures |r| <= |s|
    ensures exists i :: OccursAt(s, r, i) && IsBlank(s[..i]) && IsBlank(s[i + |r|..])
    ensures r == [] <==> IsBlank(s)
    ensures r != [] ==> !IsWhiteSpace(r[0]) && !IsWhiteSpace(r[|r| - 1])
  {
    var a := TrimStart(s);
    var r := TrimEnd(a);
    TrimParts(s, a, r);
    r
  }

  lemma TrimParts(s: string, a: string, r: string)
    requires |a| <= |s| && a == s[|s| - |a|..] && IsBlank(s[..|s| - |a|])
    requires a == [] || !IsWhiteSpace(a[0])
    requires |r| <= |a| && r == a[..|r|] && IsBlank(a[|r|..])
    requires r == [] || !IsWhiteSpace(r[|r| - 1])
    ensures |r| <= |s|
    ensures exists i :: OccursAt(s, r, i) && IsBlank(s[..i]) && IsBlank(s[i + |r|..])
    ensures r == [] <==> IsBlank(s)
    ensures r != [] ==> !IsWhiteSpace(r[0]) && !IsWhiteSpace(r[|r| - 1])
  {
    var i := |s| - |a|;
    assert a[|r|..] == s[i + |r|..];
    assert s[i..i + |r|] == a[..|r|];
    assert OccursAt(s, r, i) && IsBlank(s[..i]) && IsBlank(s[i + |r|..]);
    if r == [] {
      assert a == [];
      assert s[..i] == s;
    } else {
      assert r[0] == a[0];
      assert !IsBlank(s) by {
        assert s[i] == r[0];
      }
    }
  }

  function LowerChar(c: char): (d: char)
    ensures 'A' <= c <= 'Z' ==> 'a' <= d <= 'z'
    ensures !('A' <= c <= 'Z') ==> d == c
    ensures IsWhiteSpace(d) <==> IsWhiteSpace(c)
  {
    if 'A' <= c <= 'Z' then (c as int - 'A' as int + 'a' as int) as char else c
  }

  /** string.ToLower, restricted to the ASCII letters: each character lower-cased in place. */
  function ToLower(s: string): (r: string)
    ensures |r| == |s|
  {
    seq(|s|, i requires 0 <= i < |s| => LowerChar(s[i]))
  }

  /** needle occurs in hay at position i */
  predicate OccursAt(hay: string, needle: string, i: int) {
    0 <= i && i + |needle| <= |hay| && hay[i..i + |needle|] == needle
  }

  lemma OccursShift(hay: string, needle: string, i: int)
    requires hay != [] && 0 <= i
    ensures OccursAt(hay[1..], needle, i) <==> OccursAt(hay, needle, i + 1)
  {
    if 0 <= i && i + |needle| <= |hay| - 1 {
      assert hay[1..][i..i + |needle|] == hay[i + 1..i + 1 + |needle|];
    }
  }

  /** Ordinal string.Contains: whether needle occurs somewhere in hay. */
  function Contains(hay: string, needle: string): (b: bool)
    ensures b <==> exists i :: OccursAt(hay, needle, i)
    decreases |hay|
  {
    if |needle| > |hay| then
      assert forall i :: !OccursAt(hay, needle, i);
      false
    else if hay[..|needle|] == needle then
      assert OccursAt(hay, needle, 0);
      true
    else
      var b := Contains(hay[1..], needle);
      assert b ==> exists i :: OccursAt(hay, needle, i) by {
        if b {
          var i :| OccursAt(hay[1..], needle, i);
          OccursShift(hay, needle, i);
        }
      }
      assert (exists i :: OccursAt(hay, needle, i)) ==> b by {
        if exists i :: OccursAt(hay, needle, i) {
          var i :| OccursAt(hay, needle, i);
          assert i != 0;
          assert i >= 1;
          OccursShift(hay, needle, i - 1);
        }
      }
      b
  }

  /** string.Contains with StringComparison.OrdinalIgnoreCase. */
  function ContainsIgnoreCase(hay: string, needle: string): (b: bool)
  {
    Contains(ToLower(hay), ToLower(needle))
  }

  lemma ToLowerIdempotent(s: string)
    ensures ToLower(ToLower(s)) == ToLower(s)
  {
    forall i | 0 <= i < |s|
      ensures ToLower(ToLower(s))[i] == ToLower(s)[i]
    {
      assert LowerChar(LowerChar(s[i])) == LowerChar(s[i]);
    }
  }

  /** Case of the search term does not matter to an ignore-case search. */
  lemma ContainsIgnoreCaseOfLower(hay: string, needle: string)
    ensures ContainsIgnoreCase(hay, ToLower(needle)) == ContainsIgnoreCase(hay, needle)
  {
    ToLowerIdempotent(needle);
  }

  /** Lower-casing a slice is taking the slice of the lower-cased string. */
  lemma LowerSlice(s: string, i: nat, j: nat)
    requires i <= j <= |s|
    ensures ToLower(s)[i..j] == ToLower(s[i..j])
  {
  }

  lemma {:induction false} LowerSkip(s: string, i: nat)
    requires i <= |s|
    ensures SkipWhiteSpace(ToLower(s), i) == SkipWhiteSpace(s, i)
    decreases |s| - i
  {
    if i < |s| {
      assert ToLower(s)[i] == LowerChar(s[i]);
      LowerSkip(s, i + 1);
    }
  }

  lemma {:induction false} LowerBackOver(s: string, j: nat)
    requires j <= |s|
    ensures BackOverWhiteSpace(ToLower(s), j) == BackOverWhiteSpace(s, j)
  {
    if j > 0 {
      assert ToLower(s)[j - 1] == LowerChar(s[j - 1]);
      LowerBackOver(s, j - 1);
    }
  }

  lemma LowerTrimStart(s: string)
    ensures TrimStart(ToLower(s)) == ToLower(TrimStart(s))
  {
    LowerSkip(s, 0);
    LowerSlice(s, SkipWhiteSpace(s, 0), |s|);
  }

  lemma LowerTrimEnd(s: string)
    ensures TrimEnd(ToLower(s)) == ToLower(TrimEnd(s))
  {
    LowerBackOver(s, |s|);
    LowerSlice(s, 0, BackOverWhiteSpace(s, |s|));
  }

  /** Trimming and lower-casing commute: search.Trim().ToLower() does not depend on the order. */
  lemma TrimToLowerCommute(s: string)
    ensures Trim(ToLower(s)) == ToLower(Trim(s))
  {
    LowerTrimStart(s);
    LowerTrimEnd(TrimStart(s));
  }
}
