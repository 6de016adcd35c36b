/** String operations the installer relies on, with Python's `str` semantics
    restricted to what the installer uses: index search, the `in` substring
    test, `str.replace` and ASCII `str.lower`. The installer itself never
    splits text into lines; `JoinLines`, `SplitLines` and `SplitJoin` are here
    only to state the line structure of the desktop entry it writes. */
module Text {

  /** Index of the last `c` in `s`, or -1 (Python's `s.rfind(c)`). */
  function LastIndexOf(s: string, c: char): (i: int)
    ensures -1 <= i < |s|
    ensures i >= 0 ==> s[i] == c
    ensures forall j :: i < j < |s| ==> s[j] != c
    decreases |s|
  {
    if s == [] then -1
    else if s[|s| - 1] == c then |s| - 1
    else LastIndexOf(s[..|s| - 1], c)
  }

  /** Index of the first `c` in `s`, or -1 (Python's `s.find(c)`). */
  function IndexOf(s: string, c: char): (i: int)
    ensures -1 <= i < |s|
    ensures i >= 0 ==> s[i] == c
    ensures forall j :: 0 <= j < |s| && (i < 0 || j < i) ==> s[j] != c
    decreases |s|
  {
    if s == [] then -1
    else if s[0] == c then 0
    else var k := IndexOf(s[1..], c); if k < 0 then -1 else k + 1
  }

  /** `pat` occurs in `s` starting at index `i`. */
  predicate MatchAt(s: string, pat: string, i: int)
  {
    0 <= i && i + |pat| <= |s| && s[i..i + |pat|] == pat
  }

  /** Python's `pat in s`, scanning from the left. */
  predicate Occurs(s: string, pat: string)
    decreases |s|
  {
    |pat| <= |s| && (s[..|pat|] == pat || Occurs(s[1..], pat))
  }

  /** The scan finds `pat` exactly when some position of `s` starts a copy of it. */
  lemma {:induction false} OccursIff(s: string, pat: string)
    ensures Occurs(s, pat) <==> exists i :: MatchAt(s, pat, i)
    decreases |s|
  {
    if pat == [] {
      assert MatchAt(s, pat, 0);
    } else if |pat| <= |s| {
      OccursIff(s[1..], pat);
      if s[..|pat|] == pat {
        assert MatchAt(s, pat, 0);
      } else if Occurs(s[1..], pat) {
        var i :| MatchAt(s[1..], pat, i);
        assert s[i + 1..i + 1 + |pat|] == s[1..][i..i + |pat|];
        assert MatchAt(s, pat, i + 1);
      } else {
        forall i | MatchAt(s, pat, i)
          ensures false
        {
          if i > 0 {
            assert s[1..][i - 1..i - 1 + |pat|] == s[i..i + |pat|];
            assert MatchAt(s[1..], pat, i - 1);
          }
        }
      }
    }
  }

  /** Python's `s.replace(pat, rep)` for a non-empty `pat`: every
      non-overlapping occurrence, found from the left, is replaced. */
  function ReplaceAll(s: string, pat: string, rep: string): (r: string)
    requires pat != []
    decreases |s|
  {
    if |s| < |pat| then s
    else if s[..|pat|] == pat then rep + ReplaceAll(s[|pat|..], pat, rep)
    else [s[0]] + ReplaceAll(s[1..], pat, rep)
  }

  /** Where no occurrence of `pat` starts inside `p` (not even one that runs
      on into `pat` itself), the text before the match is copied, the match
      becomes `rep`, and the scan goes on after it. */
  lemma {:induction false} ReplaceFirstMatch(p: string, q: string, pat: string, rep: string)
    requires pat != [] && !Occurs(p + pat[..|pat| - 1], pat)
    ensures ReplaceAll(p + pat + q, pat, rep) == p + rep + ReplaceAll(q, pat, rep)
    decreases |p|
  {
    var s := p + pat + q;
    if p == [] {
      assert s[..|pat|] == pat;
      assert s[|pat|..] == q;
    } else {
      var u := p + pat[..|pat| - 1];
      assert u[..|pat|] == s[..|pat|];
      assert u[1..] == p[1..] + pat[..|pat| - 1];
      ReplaceFirstMatch(p[1..], q, pat, rep);
      assert s[1..] == p[1..] + pat + q;
      FrontMiss(s, s, pat, rep);
      var x := ReplaceAll(q, pat, rep);
      assert [p[0]] + (p[1..] + rep + x) == p + rep + x;
    }
  }

  /** Text in which `pat` does not occur is left unchanged. */
  lemma {:induction false} ReplaceMissing(s: string, pat: string, rep: string)
    requires pat != [] && !Occurs(s, pat)
    ensures ReplaceAll(s, pat, rep) == s
    decreases |s|
  {
    if |s| >= |pat| {
      ReplaceMissing(s[1..], pat, rep);
      assert [s[0]] + s[1..] == s;
    }
  }

  /** Replacing a pattern by itself changes nothing. */
  lemma {:induction false} ReplaceBySelf(s: string, pat: string)
    requires pat != []
    ensures ReplaceAll(s, pat, pat) == s
    decreases |s|
  {
    if |s| >= |pat| {
      if s[..|pat|] == pat {
        ReplaceBySelf(s[|pat|..], pat);
        assert pat + s[|pat|..] == s;
      } else {
        ReplaceBySelf(s[1..], pat);
        assert [s[0]] + s[1..] == s;
      }
    }
  }

  /** A prefix that does not contain the first character of `pat` is copied
      unchanged: no occurrence can start inside it. */
  lemma {:induction false} ReplaceAfterPrefix(p: string, t: string, pat: string, rep: string)
    requires pat != [] && pat[0] !in p
    ensures ReplaceAll(p + t, pat, rep) == p + ReplaceAll(t, pat, rep)
    decreases |p|
  {
    if p != [] {
      var s := p + t;
      if |s| < |pat| {
        assert ReplaceAll(s, pat, rep) == s;
        assert ReplaceAll(t, pat, rep) == t;
      } else {
        assert s[..|pat|][0] == p[0] != pat[0];
        var tail := ReplaceAll(s[1..], pat, rep);
        assert ReplaceAll(s, pat, rep) == [p[0]] + tail;
        assert s[1..] == p[1..] + t;
        ReplaceAfterPrefix(p[1..], t, pat, rep);
        assert tail == p[1..] + ReplaceAll(t, pat, rep);
        assert [p[0]] + (p[1..] + ReplaceAll(t, pat, rep)) == p + ReplaceAll(t, pat, rep);
      }
    } else {
      assert p + t == t;
    }
  }

  /** A separator character that `pat` does not contain splits the
      replacement: no occurrence can straddle it. */
  lemma {:induction false} ReplaceAround(a: string, c: char, b: string, pat: string, rep: string)
    requires pat != [] && c !in pat
    ensures ReplaceAll(a + [c] + b, pat, rep) == ReplaceAll(a, pat, rep) + [c] + ReplaceAll(b, pat, rep)
    decreases |a|
  {
    var s := a + [c] + b;
    if a == [] {
      ReplaceAfterPrefix([c], b, pat, rep);
      assert s == [c] + b;
    } else if |s| < |pat| {
      assert ReplaceAll(a, pat, rep) == a;
      assert ReplaceAll(b, pat, rep) == b;
    } else if s[..|pat|] == pat {
      ReplaceAroundMatch(a, c, b, pat, rep);
    } else {
      ReplaceAroundMiss(a, c, b, pat, rep);
    }
  }

  /** The step of ReplaceAround where `pat` matches at the front. */
  lemma {:induction false} ReplaceAroundMatch(a: string, c: char, b: string, pat: string, rep: string)
    requires pat != [] && c !in pat && a != []
    requires |a + [c] + b| >= |pat| && (a + [c] + b)[..|pat|] == pat
    ensures ReplaceAll(a + [c] + b, pat, rep) == ReplaceAll(a, pat, rep) + [c] + ReplaceAll(b, pat, rep)
    decreases |a|, 0
  {
    var s := a + [c] + b;
    // the match cannot reach the separator, so it lies inside `a`
    assert forall i :: 0 <= i < |pat| ==> s[i] == pat[i] != c;
    assert s[|a|] == c;
    assert |pat| <= |a|;
    assert a[..|pat|] == s[..|pat|];
    var tail := ReplaceAll(s[|pat|..], pat, rep);
    assert ReplaceAll(s, pat, rep) == rep + tail;
    assert ReplaceAll(a, pat, rep) == rep + ReplaceAll(a[|pat|..], pat, rep);
    assert s[|pat|..] == a[|pat|..] + [c] + b;
    ReplaceAround(a[|pat|..], c, b, pat, rep);
    assert tail == ReplaceAll(a[|pat|..], pat, rep) + [c] + ReplaceAll(b, pat, rep);
  }

  /** The step of ReplaceAround where `pat` does not match at the front. */
  lemma {:induction false} ReplaceAroundMiss(a: string, c: char, b: string, pat: string, rep: string)
    requires pat != [] && c !in pat && a != []
    requires |a + [c] + b| >= |pat| && (a + [c] + b)[..|pat|] != pat
    ensures ReplaceAll(a + [c] + b, pat, rep) == ReplaceAll(a, pat, rep) + [c] + ReplaceAll(b, pat, rep)
    decreases |a|, 0
  {
    var s := a + [c] + b;
    assert s[0] == a[0];
    var tail := ReplaceAll(s[1..], pat, rep);
    assert ReplaceAll(s, pat, rep) == [a[0]] + tail;
    assert s[1..] == a[1..] + [c] + b;
    ReplaceAround(a[1..], c, b, pat, rep);
    var ra, rb := ReplaceAll(a[1..], pat, rep), ReplaceAll(b, pat, rep);
    assert tail == ra + [c] + rb;
    FrontMiss(a, s, pat, rep);
    assert [a[0]] + (ra + [c] + rb) == ([a[0]] + ra) + [c] + rb;
  }

  /** Where `pat` does not match at the front of `a`, the first character of
      `a` is copied. */
  lemma FrontMiss(a: string, s: string, pat: string, rep: string)
    requires pat != [] && a != [] && |s| >= |pat|
    requires a <= s && s[..|pat|] != pat
    ensures ReplaceAll(a, pat, rep) == [a[0]] + ReplaceAll(a[1..], pat, rep)
  {
    if |a| >= |pat| {
      assert a[..|pat|] == s[..|pat|];
    } else {
      assert ReplaceAll(a[1..], pat, rep) == a[1..];
      assert a == [a[0]] + a[1..];
    }
  }

  /** ASCII lower-casing of one character, as `str.lower` does for ASCII. */
  function LowerChar(c: char): char
  {
    if 'A' <= c <= 'Z' then (c as int + 32) as char else c
  }

  /** `str.lower` restricted to ASCII letters: no capital is left, every
      other character is kept, and each capital becomes its small letter. */
  function Lower(s: string): (r: string)
    ensures |r| == |s|
    ensures forall i :: 0 <= i < |r| ==> !('A' <= r[i] <= 'Z')
    ensures forall i :: 0 <= i < |s| && !('A' <= s[i] <= 'Z') ==> r[i] == s[i]
    ensures forall i :: 0 <= i < |s| && 'A' <= s[i] <= 'Z' ==> r[i] as int == s[i] as int + 32
  {
    seq(|s|, i requires 0 <= i < |s| => LowerChar(s[i]))
  }

  /** Lower-casing twice is lower-casing once. */
  lemma LowerIdempotent(s: string)
    ensures Lower(Lower(s)) == Lower(s)
  {
  }

  /** The text made of `lines`, each followed by a newline. */
  function JoinLines(lines: seq<string>): (r: string)
  {
    if lines == [] then [] else lines[0] + "\n" + JoinLines(lines[1..])
  }

  /** The lines of `s` at `\n` boundaries; a final newline does not start a
      further line (Python's `splitlines` with `\n` as the only break). */
  function SplitLines(s: string): (lines: seq<string>)
    decreases |s|
  {
    if s == [] then []
    else
      var i := IndexOf(s, '\n');
      if i < 0 then [s] else [s[..i]] + SplitLines(s[i + 1..])
  }

  /** Splitting undoes joining, for lines without newlines. */
  lemma {:induction false} SplitJoin(lines: seq<string>)
    requires forall k :: 0 <= k < |lines| ==> '\n' !in lines[k]
    ensures SplitLines(JoinLines(lines)) == lines
    decreases |lines|
  {
    if lines != [] {
      var s := JoinLines(lines);
      var rest := JoinLines(lines[1..]);
      assert s == lines[0] + "\n" + rest;
      assert s[|lines[0]|] == '\n';
      assert forall j :: 0 <= j < |lines[0]| ==> s[j] == lines[0][j];
      assert IndexOf(s, '\n') == |lines[0]|;
      assert s[..|lines[0]|] == lines[0];
      assert s[|lines[0]| + 1..] == rest;
      SplitJoin(lines[1..]);
    }
  }
}
