/** `truncate` and `slugify` from the site's string utilities (src/lib/utils.ts). */
module StringUtils {
  import opened Text

  // ---------------------------------------------------------------- truncate

  /** `str.substring(0, n)`: JavaScript clamps a negative end to 0 and an end past the string to its length. */
  function Substring0(s: string, n: int): (r: string)
    ensures |r| == if n < 0 then 0 else if n > |s| then |s| else n
    ensures r == s[..|r|]
  {
    if n < 0 then [] else if n > |s| then s else s[..n]
  }

  const Ellipsis: string := "..."

  /** `truncate(str, length)`: a string longer than `n` is cut to its first `n` characters and
      marked with "..."; any other string is returned as it is. */
  function Truncate(s: string, n: int): (r: string)
    ensures |s| <= n ==> r == s
    ensures |s| > n ==> |r| == (if n < 0 then 0 else n) + 3
    ensures |s| > n ==> r[|r| - 3..] == Ellipsis && r[..|r| - 3] == s[..|r| - 3]
  {
    if |s| > n then Substring0(s, n) + Ellipsis else s
  }

  /** Truncating to the same length twice is truncating once. */
  lemma TruncateIdempotent(s: string, n: int)
    ensures Truncate(Truncate(s, n), n) == Truncate(s, n)
  {
  }

  /** A non-negative bound is respected up to the three-character marker. */
  lemma TruncateBound(s: string, n: nat)
    ensures |Truncate(s, n)| <= n + 3
    ensures |s| > n ==> |Truncate(s, n)| == n + 3
  {
  }

  // ---------------------------------------------------------------- slugify

  /** A character of the regular-expression class `\w`. */
  predicate IsWordChar(c: char) {
    ('a' <= c <= 'z') || ('A' <= c <= 'Z') || ('0' <= c <= '9') || c == '_'
  }

  /** A character that `slugify` can output. */
  predicate IsSlugChar(c: char) {
    ('a' <= c <= 'z') || ('0' <= c <= '9') || c == '_' || c == '-'
  }

  /** `.replace(/[^\w ]+/g, "")`: deleting every run of other characters is deleting each of them. */
  function KeepWordsAndSpaces(s: string): (r: string)
    ensures forall c :: c in r <==> c in s && (IsWordChar(c) || c == ' ')
    ensures |r| <= |s|
    // one character is kept exactly when it is a word character or a space
    ensures |s| == 1 ==> r == if IsWordChar(s[0]) || s[0] == ' ' then s else []
  {
    if s == [] then []
    else (if IsWordChar(s[0]) || s[0] == ' ' then [s[0]] else []) + KeepWordsAndSpaces(s[1..])
  }

  /** The filter works character by character and keeps the order: filtering a concatenation is
      concatenating the filtered parts. With the one-character case this pins the result down. */
  lemma {:induction false} KeepWordsAndSpacesAppend(a: string, b: string)
    ensures KeepWordsAndSpaces(a + b) == KeepWordsAndSpaces(a) + KeepWordsAndSpaces(b)
    decreases |a|
  {
    if a != [] {
      assert (a + b)[1..] == a[1..] + b;
      KeepWordsAndSpacesAppend(a[1..], b);
    } else {
      assert a + b == b;
    }
  }

  /** A text made only of word characters and spaces is kept whole. */
  lemma {:induction false} KeepWordsAndSpacesKeepsAll(s: string)
    requires forall i :: 0 <= i < |s| ==> IsWordChar(s[i]) || s[i] == ' '
    ensures KeepWordsAndSpaces(s) == s
    decreases |s|
  {
    if s != [] {
      KeepWordsAndSpacesKeepsAll(s[1..]);
      assert s == [s[0]] + s[1..];
    }
  }

  /** The suffix of `t` after its leading spaces. */
  function SkipSpaces(t: string): (r: string)
    ensures |r| <= |t| && r == t[|t| - |r|..]
    ensures r == [] || r[0] != ' '
  {
    if t != [] && t[0] == ' ' then SkipSpaces(t[1..]) else t
  }

  /** `.replace(/ +/g, "-")`: every maximal run of spaces becomes one hyphen. */
  function DashSpaceRuns(t: string): (r: string)
    ensures ' ' !in r
    ensures forall c :: c in r ==> c == '-' || (c in t && c != ' ')
    ensures t != [] && t[0] == ' ' ==> r != [] && r[0] == '-'
    ensures t != [] && t[0] != ' ' ==> r != [] && r[0] == t[0]
    ensures t != [] && t[|t| - 1] == ' ' ==> r != [] && r[|r| - 1] == '-'
    ensures t == [] <==> r == []
    decreases |t|
  {
    if t == [] then []
    else if t[0] == ' ' then "-" + DashSpaceRuns(SkipSpaces(t[1..]))
    else [t[0]] + DashSpaceRuns(t[1..])
  }

  /** A text without spaces is not changed by the run replacement. */
  lemma {:induction false} DashSpaceRunsNoSpace(t: string)
    requires ' ' !in t
    ensures DashSpaceRuns(t) == t
    decreases |t|
  {
    if t != [] {
      assert t[0] in t;
      assert ' ' !in t[1..] by {
        forall i | 0 <= i < |t[1..]| ensures t[1..][i] != ' ' {
          assert t[1..][i] == t[i + 1];
        }
      }
      DashSpaceRunsNoSpace(t[1..]);
      assert t == [t[0]] + t[1..];
    }
  }

  /** `slugify(str)`: lower-case, drop everything but word characters and spaces, hyphenate space runs. */
  function Slugify(s: string): (r: string)
    ensures forall c :: c in r ==> IsSlugChar(c)
    ensures ' ' !in r
  {
    var kept := KeepWordsAndSpaces(Lower(s));
    assert forall c :: c in kept ==> c == ' ' || IsSlugChar(c) by {
      forall c | c in kept ensures c == ' ' || IsSlugChar(c) {
        var i :| 0 <= i < |Lower(s)| && Lower(s)[i] == c;
        assert c == LowerChar(s[i]);
      }
    }
    DashSpaceRuns(kept)
  }

  /** A text made only of `[a-z0-9_]` is its own slug. */
  lemma SlugifyFixesPlainSlugs(s: string)
    requires forall i :: 0 <= i < |s| ==> ('a' <= s[i] <= 'z') || ('0' <= s[i] <= '9') || s[i] == '_'
    ensures Slugify(s) == s
  {
    LowerOfLowerCase(s);
    KeepWordsAndSpacesKeepsAll(s);
    assert ' ' !in s by {
      forall i | 0 <= i < |s| ensures s[i] != ' ' {
      }
    }
    DashSpaceRunsNoSpace(s);
  }

  /** No two hyphens stand next to each other. */
  predicate NoDoubleDash(r: string) {
    forall i :: 0 <= i < |r| - 1 ==> !(r[i] == '-' && r[i + 1] == '-')
  }

  /** Hyphenating a text without hyphens never puts two hyphens side by side. */
  lemma {:induction false} DashSpaceRunsNoDoubleDash(t: string)
    requires '-' !in t
    ensures NoDoubleDash(DashSpaceRuns(t))
    decreases |t|
  {
    if t == [] {
    } else if t[0] == ' ' {
      var rest := SkipSpaces(t[1..]);
      assert rest == t[|t| - |rest|..];
      DashSpaceRunsNoDoubleDash(rest);
      var tail := DashSpaceRuns(rest);
      assert forall i :: 0 <= i < |tail| - 1 ==> !(tail[i] == '-' && tail[i + 1] == '-');
      assert tail == [] || tail[0] != '-';
      assert DashSpaceRuns(t) == "-" + tail;
    } else {
      DashSpaceRunsNoDoubleDash(t[1..]);
      var tail := DashSpaceRuns(t[1..]);
      assert DashSpaceRuns(t) == [t[0]] + tail;
    }
  }

  /** `slugify` never produces two adjacent hyphens. */
  lemma SlugifyNoDoubleDash(s: string)
    ensures NoDoubleDash(Slugify(s))
  {
    DashSpaceRunsNoDoubleDash(KeepWordsAndSpaces(Lower(s)));
  }

  /** Reference reading of the run replacement: drop every space that follows a space ... */
  function CollapseSpaces(t: string): string
    decreases |t|
  {
    if |t| < 2 then t
    else if t[0] == ' ' && t[1] == ' ' then CollapseSpaces(t[1..])
    else [t[0]] + CollapseSpaces(t[1..])
  }

  /** ... then turn each remaining space into a hyphen. */
  function SpacesToDashes(t: string): (r: string)
    ensures |r| == |t|
  {
    seq(|t|, i requires 0 <= i < |t| => if t[i] == ' ' then '-' else t[i])
  }

  lemma SpacesToDashesCons(c: char, x: string)
    ensures SpacesToDashes([c] + x) == [if c == ' ' then '-' else c] + SpacesToDashes(x)
  {
    var l, r := SpacesToDashes([c] + x), [if c == ' ' then '-' else c] + SpacesToDashes(x);
    forall i | 0 <= i < |l| ensures l[i] == r[i] {
      if i > 0 { assert ([c] + x)[i] == x[i - 1]; }
    }
  }

  lemma {:induction false} CollapseLeadingRun(t: string)
    requires t != [] && t[0] == ' '
    ensures CollapseSpaces(t) == [' '] + CollapseSpaces(SkipSpaces(t[1..]))
    decreases |t|
  {
    if |t| >= 2 && t[1] == ' ' {
      CollapseLeadingRun(t[1..]);
      assert CollapseSpaces(t) == CollapseSpaces(t[1..]);
      assert SkipSpaces(t[1..]) == SkipSpaces(t[1..][1..]);
    } else if |t| >= 2 {
      assert SkipSpaces(t[1..]) == t[1..];
    } else {
      assert t[1..] == [];
    }
  }

  /** The run replacement is the same as collapsing space runs and then mapping spaces to hyphens:
      each maximal run of spaces becomes exactly one hyphen, and nothing else changes. */
  lemma {:induction false} DashSpaceRunsIsCollapse(t: string)
    ensures DashSpaceRuns(t) == SpacesToDashes(CollapseSpaces(t))
    decreases |t|
  {
    if t == [] {
    } else if t[0] == ' ' {
      var rest := SkipSpaces(t[1..]);
      CollapseLeadingRun(t);
      DashSpaceRunsIsCollapse(rest);
      SpacesToDashesCons(' ', CollapseSpaces(rest));
      assert DashSpaceRuns(t) == "-" + DashSpaceRuns(rest);
    } else {
      DashSpaceRunsIsCollapse(t[1..]);
      assert CollapseSpaces(t) == [t[0]] + CollapseSpaces(t[1..]);
      SpacesToDashesCons(t[0], CollapseSpaces(t[1..]));
      assert DashSpaceRuns(t) == [t[0]] + DashSpaceRuns(t[1..]);
    }
  }

  /** There is no trimming: leading and trailing spaces become leading and trailing hyphens. */
  lemma SlugifyKeepsEdgeSpaces(s: string)
    requires s != []
    ensures s[0] == ' ' ==> Slugify(s)[0] == '-'
    ensures s[|s| - 1] == ' ' ==> Slugify(s)[|Slugify(s)| - 1] == '-'
  {
    var l := Lower(s);
    assert l[0] == LowerChar(s[0]) && l[|l| - 1] == LowerChar(s[|s| - 1]);
    KeepWordsAndSpacesEdges(l);
  }

  lemma {:induction false} KeepWordsAndSpacesEdges(l: string)
    requires l != []
    ensures l[0] == ' ' ==> KeepWordsAndSpaces(l) != [] && KeepWordsAndSpaces(l)[0] == ' '
    ensures l[|l| - 1] == ' ' ==> KeepWordsAndSpaces(l) != [] && KeepWordsAndSpaces(l)[|KeepWordsAndSpaces(l)| - 1] == ' '
    decreases |l|
  {
    if |l| > 1 && l[|l| - 1] == ' ' {
      KeepWordsAndSpacesEdges(l[1..]);
    }
  }

  lemma SlugifySpaced()
    ensures Slugify("a b") == "a-b"
  {
    LowerSpaced();
    KeepSpaced();
    DashSpaced();
  }

  lemma LowerSpaced()
    ensures Lower("a b") == "a b"
  {
    LowerOfLowerCase("a b");
  }

  lemma KeepSpaced()
    ensures KeepWordsAndSpaces("a b") == "a b"
  {
    assert "a b"[1..] == " b" && " b"[1..] == "b" && "b"[1..] == [];
    assert KeepWordsAndSpaces("b") == "b";
    assert KeepWordsAndSpaces(" b") == " b";
  }

  lemma DashSpaced()
    ensures DashSpaceRuns("a b") == "a-b"
  {
    DashB();
    assert " b"[1..] == "b";
    assert SkipSpaces("b") == "b";
    assert DashSpaceRuns(" b") == "-" + DashSpaceRuns("b");
    assert "a b"[1..] == " b";
    assert DashSpaceRuns("a b") == "a" + DashSpaceRuns(" b");
  }

  lemma DashB()
    ensures DashSpaceRuns("b") == "b"
  {
    assert "b"[1..] == [];
  }

  lemma SlugifyHyphenated()
    ensures Slugify("a-b") == "ab"
  {
    LowerHyphenated();
    KeepHyphenated();
    DashHyphenated();
  }

  lemma LowerHyphenated()
    ensures Lower("a-b") == "a-b"
  {
    LowerOfLowerCase("a-b");
  }

  lemma KeepHyphenated()
    ensures KeepWordsAndSpaces("a-b") == "ab"
  {
    assert "a-b"[1..] == "-b" && "-b"[1..] == "b" && "b"[1..] == [];
    assert KeepWordsAndSpaces("b") == "b";
    assert KeepWordsAndSpaces("-b") == "b";
  }

  lemma DashHyphenated()
    ensures DashSpaceRuns("ab") == "ab"
  {
    assert "ab"[1..] == "b" && "b"[1..] == [];
    assert DashSpaceRuns("b") == "b";
  }

  /** Hyphens and punctuation of the input are deleted, so `slugify` is not idempotent. */
  lemma SlugifyNotIdempotent()
    ensures Slugify("a b") == "a-b"
    ensures Slugify("a-b") == "ab"
    ensures Slugify(Slugify("a b")) != Slugify("a b")
  {
    SlugifySpaced();
    SlugifyHyphenated();
  }
}
