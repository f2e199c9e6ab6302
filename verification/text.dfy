/** The few Rust string operations the logger relies on, over `string` = `seq<char>`. */
module Text {

  predicate StartsWith(s: string, prefix: string) {
    |prefix| <= |s| && s[..|prefix|] == prefix
  }

  /** `str::contains` with a string pattern, scanning from the left. */
  predicate Contains(s: string, sub: string)
    decreases |s|
  {
    StartsWith(s, sub) || (|s| > 0 && Contains(s[1..], sub))
  }

  /** `sub` occurs in `s` starting at index i. */
  ghost predicate OccursAt(s: string, sub: string, i: int) {
    0 <= i && i + |sub| <= |s| && s[i..i + |sub|] == sub
  }

  /** The scan finds `sub` exactly when it occurs somewhere. */
  lemma {:induction false} ContainsIffOccurs(s: string, sub: string)
    ensures Contains(s, sub) <==> exists i :: OccursAt(s, sub, i)
    decreases |s|
  {
    if |s| > 0 {
      ContainsIffOccurs(s[1..], sub);
      if exists i :: OccursAt(s[1..], sub, i) {
        var i :| OccursAt(s[1..], sub, i);
        assert OccursAt(s, sub, i + 1);
      }
      if exists i :: OccursAt(s, sub, i) {
        var i :| OccursAt(s, sub, i);
        if i > 0 {
          assert OccursAt(s[1..], sub, i - 1);
        }
      }
    }
    if StartsWith(s, sub) {
      assert OccursAt(s, sub, 0);
    }
  }

  /** A pattern whose first character never appears in `s` is not contained in `s`. */
  lemma {:induction false} NotContainsMissingChar(s: string, sub: string)
    requires |sub| > 0 && sub[0] !in s
    ensures !Contains(s, sub)
    decreases |s|
  {
    if |s| > 0 {
      assert s[0] != sub[0];
      assert sub[0] !in s[1..] by {
        assert forall j :: 0 <= j < |s[1..]| ==> s[1..][j] == s[j + 1];
      }
      NotContainsMissingChar(s[1..], sub);
    }
  }

  /** A pattern longer than `s` is not contained in it. */
  lemma {:induction false} NotContainsLonger(s: string, sub: string)
    requires |sub| > |s|
    ensures !Contains(s, sub)
    decreases |s|
  {
    if |s| > 0 {
      NotContainsLonger(s[1..], sub);
    }
  }

  /** `str::replace(pat, rep)`: every non-overlapping occurrence of `pat`, leftmost first, becomes `rep`. */
  function ReplaceAll(s: string, pat: string, rep: string): (r: string)
    requires |pat| > 0
    ensures !Contains(s, pat) ==> r == s
    decreases |s|
  {
    if |s| < |pat| then s
    else if StartsWith(s, pat) then rep + ReplaceAll(s[|pat|..], pat, rep)
    else [s[0]] + ReplaceAll(s[1..], pat, rep)
  }

  /** `split(sep).next()`: the part of `s` before the first occurrence of `sep`, or all of `s`. */
  function BeforeFirst(s: string, sep: string): (r: string)
    requires |sep| > 0
    ensures |r| <= |s| && r == s[..|r|]
    ensures !Contains(r, sep)
    ensures |r| < |s| ==> StartsWith(s[|r|..], sep)
    ensures forall j :: 0 <= j < |r| ==> !StartsWith(s[j..], sep)
    decreases |s|
  {
    if |s| < |sep| then
      NotContainsLonger(s, sep);
      s
    else if StartsWith(s, sep) then ""
    else
      var t := BeforeFirst(s[1..], sep);
      var r := [s[0]] + t;
      assert t == s[1..][..|t|];
      assert r == s[..|r|];
      assert !StartsWith(r, sep);
      assert r[1..] == t;
      assert |r| < |s| ==> s[|r|..] == s[1..][|t|..];
      assert forall j :: 1 <= j < |r| ==> s[j..] == s[1..][j - 1..];
      r
  }
}
