/**
  String operations the service relies on, written out over `seq<char>`:
  substring search (Python's `in`), ASCII case folding, `str.split(" ")[-1]`
  and `str.replace(pattern, "")`.
 */
module Text {

  predicate StartsWith(s: string, p: string) {
    |p| <= |s| && s[..|p|] == p
  }

  predicate EndsWith(s: string, p: string) {
    |p| <= |s| && s[|s| - |p|..] == p
  }

  /** `p` occurs in `s` starting at index `i`. */
  predicate OccursAt(s: string, p: string, i: int) {
    0 <= i && i + |p| <= |s| && s[i..i + |p|] == p
  }

  /** Python's `p in s` for strings: `p` is a prefix of some suffix of `s`. */
  predicate Contains(s: string, p: string)
    decreases |s|
  {
    |p| <= |s| && (s[..|p|] == p || Contains(s[1..], p))
  }

  /** `p in s` holds exactly when `p` occurs in `s` at some index. */
  lemma {:induction false} ContainsOccurs(s: string, p: string)
    ensures Contains(s, p) <==> exists i | 0 <= i <= |s| - |p| :: OccursAt(s, p, i)
    decreases |s|
  {
    if |p| <= |s| {
      if s[..|p|] == p {
        assert OccursAt(s, p, 0);
      } else {
        var t := s[1..];
        ContainsOccurs(t, p);
        forall i | 0 <= i <= |t| - |p|
          ensures OccursAt(t, p, i) <==> OccursAt(s, p, i + 1)
        {
          assert t[i..i + |p|] == s[i + 1..i + 1 + |p|];
        }
        if Contains(s, p) {
          var i :| 0 <= i <= |t| - |p| && OccursAt(t, p, i);
          assert OccursAt(s, p, i + 1);
        } else {
          forall i | 0 <= i <= |s| - |p|
            ensures !OccursAt(s, p, i)
          {
            if i > 0 {
              assert !OccursAt(t, p, i - 1);
            }
          }
        }
      }
    }
  }

  function LowerChar(c: char): char {
    if 'A' <= c <= 'Z' then (c as int + 32) as char else c
  }

  function Lower(s: string): string {
    seq(|s|, i requires 0 <= i < |s| => LowerChar(s[i]))
  }

  /** Case-insensitive substring test (ASCII folding only). */
  predicate ContainsIgnoreCase(s: string, p: string) {
    Contains(Lower(s), Lower(p))
  }

  /** An exact occurrence is also a case-insensitive one. */
  lemma ContainsIgnoreCaseOfContains(s: string, p: string)
    requires Contains(s, p)
    ensures ContainsIgnoreCase(s, p)
  {
    ContainsOccurs(s, p);
    var i :| 0 <= i <= |s| - |p| && OccursAt(s, p, i);
    var ls, lp := Lower(s), Lower(p);
    forall k | 0 <= k < |lp|
      ensures ls[i..i + |lp|][k] == lp[k]
    {
      assert s[i..i + |p|][k] == p[k];
    }
    assert OccursAt(ls, lp, i);
    ContainsOccurs(ls, lp);
  }

  /** Folding is idempotent, so the case of the text makes no difference. */
  lemma ContainsIgnoreCaseFolded(s: string, p: string)
    ensures ContainsIgnoreCase(Lower(s), p) <==> ContainsIgnoreCase(s, p)
    ensures ContainsIgnoreCase(s, Lower(p)) <==> ContainsIgnoreCase(s, p)
  {
    assert Lower(Lower(s)) == Lower(s);
    assert Lower(Lower(p)) == Lower(p);
  }

  /**
    The last element of `s.split(" ")`: the maximal suffix of `s` without a
    space. It is `s` itself when `s` has no space and empty when `s` ends
    with one.
   */
  function LastToken(s: string): (r: string)
    ensures |r| <= |s| && s[|s| - |r|..] == r
    ensures ' ' !in r
    ensures |r| == |s| || s[|s| - |r| - 1] == ' '
  {
    if |s| == 0 then ""
    else if s[|s| - 1] == ' ' then ""
    else LastToken(s[..|s| - 1]) + [s[|s| - 1]]
  }

  /** Only the text after the last space decides the last token. */
  lemma LastTokenAfterSpace(prefix: string, w: string)
    requires ' ' !in w
    ensures LastToken(prefix + " " + w) == w
  {
    var s := prefix + " " + w;
    var r := LastToken(s);
    assert s[|s| - |w| - 1] == ' ';
    assert s[|s| - |w|..] == w;
  }

  /** Python's `s.replace(pat, rep)`: left-to-right, non-overlapping. */
  function ReplaceAll(s: string, pat: string, rep: string): string
    requires |pat| > 0
    decreases |s|
  {
    if |s| < |pat| then s
    else if s[..|pat|] == pat then rep + ReplaceAll(s[|pat|..], pat, rep)
    else [s[0]] + ReplaceAll(s[1..], pat, rep)
  }

  /** A prefix on which no occurrence of `pat` starts is copied unchanged. */
  lemma {:induction false} ReplaceAllKeepsPrefix(u: string, w: string, pat: string, rep: string)
    requires |pat| > 0
    requires forall i :: 0 <= i < |u| ==> !OccursAt(u + w, pat, i)
    ensures ReplaceAll(u + w, pat, rep) == u + ReplaceAll(w, pat, rep)
    decreases |u|
  {
    if |u| > 0 {
      var s := u + w;
      var t := u[1..] + w;
      assert !OccursAt(s, pat, 0);
      if |s| < |pat| {
        assert ReplaceAll(w, pat, rep) == w;
      } else {
        assert s[1..] == t;
        assert s[..|pat|] != pat;
        assert ReplaceAll(s, pat, rep) == [s[0]] + ReplaceAll(t, pat, rep);
        forall i | 0 <= i < |u| - 1
          ensures !OccursAt(t, pat, i)
        {
          assert !OccursAt(s, pat, i + 1);
          if i + |pat| <= |t| {
            assert t[i..i + |pat|] == s[i + 1..i + 1 + |pat|];
          }
        }
        ReplaceAllKeepsPrefix(u[1..], w, pat, rep);
        assert u == [u[0]] + u[1..];
      }
    } else {
      assert u + w == w;
    }
  }

  /** A string in which `pat` never occurs is left as it is. */
  lemma ReplaceAllNoOccurrence(s: string, pat: string, rep: string)
    requires |pat| > 0
    requires !Contains(s, pat)
    ensures ReplaceAll(s, pat, rep) == s
  {
    assert s + "" == s;
    ContainsOccurs(s, pat);
    ReplaceAllKeepsPrefix(s, "", pat, rep);
  }
}
