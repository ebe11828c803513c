/** JavaScript string built-ins used by the site, stated over `seq<char>`.
    `toLowerCase` is modelled on ASCII letters only; `trim` uses the full
    set of characters that ECMAScript counts as white space or line terminators. */
module Text {

  /** `c.toLowerCase()` for one character, on the ASCII range. */
  function LowerChar(c: char): (r: char)
    ensures 'A' <= c <= 'Z' ==> r as int == c as int + 32
    ensures !('A' <= c <= 'Z') ==> r == c
    ensures !('A' <= r <= 'Z')
  {
    if 'A' <= c <= 'Z' then (c as int + 32) as char else c
  }

  /** `s.toLowerCase()`. */
  function Lower(s: string): (r: string)
    ensures |r| == |s|
    ensures forall i :: 0 <= i < |s| ==> r[i] == LowerChar(s[i])
  {
    if s == [] then [] else [LowerChar(s[0])] + Lower(s[1..])
  }

  predicate IsLowerCase(s: string) {
    forall i :: 0 <= i < |s| ==> !('A' <= s[i] <= 'Z')
  }

  /** A string without capital letters is its own lower-case form. */
  lemma LowerOfLowerCase(s: string)
    requires IsLowerCase(s)
    ensures Lower(s) == s
  {
  }

  /** Lowering a string twice is lowering it once. */
  lemma {:induction false} LowerIdempotent(s: string)
    ensures Lower(Lower(s)) == Lower(s)
  {
    if s != [] {
      LowerIdempotent(s[1..]);
      assert Lower(s) == [LowerChar(s[0])] + Lower(s[1..]);
    }
  }

  /** `p` occurs in `s` starting at index `i`. */
  predicate OccursAt(s: string, p: string, i: int) {
    0 <= i && i + |p| <= |s| && s[i..i + |p|] == p
  }

  /** `s.includes(p)`, computed left to right. */
  function Contains(s: string, p: string): (r: bool)
    ensures r ==> |p| <= |s|
    ensures |p| <= |s| && s[..|p|] == p ==> r
    decreases |s|
  {
    (|p| <= |s| && s[..|p|] == p) || (s != [] && Contains(s[1..], p))
  }

  /** `Contains` agrees with the index-based definition of an occurrence, in both directions. */
  lemma {:induction false} ContainsIff(s: string, p: string)
    ensures Contains(s, p) <==> exists i :: OccursAt(s, p, i)
    decreases |s|
  {
    if |p| <= |s| && s[..|p|] == p {
      assert OccursAt(s, p, 0);
    } else if s != [] {
      ContainsIff(s[1..], p);
      assert !OccursAt(s, p, 0);
      forall i | 0 <= i ensures OccursAt(s, p, i + 1) <==> OccursAt(s[1..], p, i) {
        OccursInTail(s, p, i);
      }
      forall i | OccursAt(s, p, i) ensures OccursAt(s[1..], p, i - 1) {
        OccursInTail(s, p, i - 1);
      }
    }
  }

  /** An occurrence one place further into `s` is an occurrence in its tail. */
  lemma OccursInTail(s: string, p: string, i: int)
    requires s != [] && 0 <= i
    ensures OccursAt(s, p, i + 1) <==> OccursAt(s[1..], p, i)
  {
    if i + 1 + |p| <= |s| {
      assert s[i + 1..i + 1 + |p|] == s[1..][i..i + |p|];
    }
  }

  /** A string of which no position starts `p` does not contain `p`. */
  lemma NoFirstCharNotContains(s: string, p: string)
    requires |p| > 0
    requires forall i :: 0 <= i < |s| ==> s[i] != p[0]
    ensures !Contains(s, p)
  {
    ContainsIff(s, p);
    forall i | 0 <= i && i + |p| <= |s| ensures !OccursAt(s, p, i) {
      assert s[i..i + |p|][0] == s[i];
    }
  }

  /** Every string contains itself. */
  lemma ContainsSelf(s: string)
    ensures Contains(s, s)
  {
    assert s[..|s|] == s;
  }

  /** The characters `String.prototype.trim` strips: ECMAScript WhiteSpace and LineTerminator. */
  predicate IsJsWhitespace(c: char) {
    c == '\t' || c == '\n' || c == '\U{000B}' || c == '\U{000C}' || c == '\r' || c == ' '
    || c == '\U{00A0}' || c == '\U{1680}' || ('\U{2000}' <= c <= '\U{200A}')
    || c == '\U{2028}' || c == '\U{2029}' || c == '\U{202F}' || c == '\U{205F}'
    || c == '\U{3000}' || c == '\U{FEFF}'
  }

  function TrimStart(s: string): (r: string)
    ensures |r| <= |s| && r == s[|s| - |r|..]
    ensures r == [] || !IsJsWhitespace(r[0])
    ensures forall i :: 0 <= i < |s| - |r| ==> IsJsWhitespace(s[i])
  {
    if s != [] && IsJsWhitespace(s[0]) then TrimStart(s[1..]) else s
  }

  function TrimEnd(s: string): (r: string)
    ensures |r| <= |s| && r == s[..|r|]
    ensures r == [] || !IsJsWhitespace(r[|r| - 1])
    ensures forall i :: |r| <= i < |s| ==> IsJsWhitespace(s[i])
  {
    if s != [] && IsJsWhitespace(s[|s| - 1]) then TrimEnd(s[..|s| - 1]) else s
  }

  /** `s.trim()`: `s` is the result framed by white space only, and the result has none at either end. */
  function Trim(s: string): (r: string)
    ensures exists a, b :: (0 <= a <= b <= |s| && r == s[a..b]
                            && (forall i :: 0 <= i < a ==> IsJsWhitespace(s[i]))
                            && (forall i :: b <= i < |s| ==> IsJsWhitespace(s[i])))
    ensures r != [] ==> !IsJsWhitespace(r[0]) && !IsJsWhitespace(r[|r| - 1])
    ensures r == [] <==> forall i :: 0 <= i < |s| ==> IsJsWhitespace(s[i])
  {
    var t := TrimStart(s);
    var u := TrimEnd(t);
    var a := |s| - |t|;
    assert s[a..a + |u|] == u;
    assert u == [] ==> forall i :: 0 <= i < |s| ==> IsJsWhitespace(s[i]) by {
      if u == [] {
        assert t == [];
      }
    }
    u
  }

  /** `s.replace(new RegExp(p, "g"), rep)` for a literal pattern: leftmost, non-overlapping occurrences. */
  function ReplaceAll(s: string, p: string, rep: string): (r: string)
    requires p != []
    // a text in which the pattern does not occur is returned as it is
    ensures !Contains(s, p) ==> r == s
    decreases |s|
  {
    if |s| < |p| then s
    else if s[..|p|] == p then rep + ReplaceAll(s[|p|..], p, rep)
    else
      assert s == [s[0]] + s[1..];
      [s[0]] + ReplaceAll(s[1..], p, rep)
  }

  /** A single character is replaced exactly when it is the pattern character. */
  lemma ReplaceOneChar(x: char, c: char, rep: string)
    ensures ReplaceAll([x], [c], rep) == if x == c then rep else [x]
  {
    assert [x][..1] == [x] && [x][1..] == [];
    if x == c {
      assert rep + [] == rep;
    }
  }

  /** Replacing a single character works piece by piece: a concatenation is rewritten part by part.
      With `ReplaceOneChar` this fixes the result: every `c` becomes `rep`, every other character stays. */
  lemma {:induction false} ReplaceCharAppend(a: string, b: string, c: char, rep: string)
    ensures ReplaceAll(a + b, [c], rep) == ReplaceAll(a, [c], rep) + ReplaceAll(b, [c], rep)
    decreases |a|
  {
    if a == [] {
      assert a + b == b;
    } else {
      var ab := a + b;
      assert ab[..1] == [a[0]] && a[..1] == [a[0]];
      assert ab[1..] == a[1..] + b;
      ReplaceCharAppend(a[1..], b, c, rep);
      if a[0] == c {
        assert ReplaceAll(ab, [c], rep) == rep + ReplaceAll(a[1..] + b, [c], rep);
        assert ReplaceAll(a, [c], rep) == rep + ReplaceAll(a[1..], [c], rep);
      } else {
        assert ReplaceAll(ab, [c], rep) == [a[0]] + ReplaceAll(a[1..] + b, [c], rep);
        assert ReplaceAll(a, [c], rep) == [a[0]] + ReplaceAll(a[1..], [c], rep);
      }
    }
  }

  /** A line break inside a text is replaced in place: `a\nb` becomes `a<br />b`. */
  lemma ReplaceBreakExample()
    ensures ReplaceAll("a\nb", "\n", "<br />") == "a<br />b"
  {
    assert "a\nb" == "a" + ("\n" + "b");
    ReplaceCharAppend("a", "\n" + "b", '\n', "<br />");
    ReplaceCharAppend("\n", "b", '\n', "<br />");
    ReplaceOneChar('a', '\n', "<br />");
    ReplaceOneChar('\n', '\n', "<br />");
    ReplaceOneChar('b', '\n', "<br />");
  }

  /** Replacing a pattern by itself changes nothing. */
  lemma {:induction false} ReplaceAllSelf(s: string, p: string)
    requires p != []
    ensures ReplaceAll(s, p, p) == s
    decreases |s|
  {
    if |s| < |p| {
    } else if s[..|p|] == p {
      ReplaceAllSelf(s[|p|..], p);
      assert s == s[..|p|] + s[|p|..];
    } else {
      ReplaceAllSelf(s[1..], p);
      assert s == [s[0]] + s[1..];
    }
  }

  /** Replacing every `c` by a text free of `c` leaves no `c`. */
  lemma {:induction false} ReplaceCharRemovesIt(s: string, c: char, rep: string)
    requires c !in rep
    ensures c !in ReplaceAll(s, [c], rep)
    decreases |s|
  {
    if |s| >= 1 {
      ReplaceCharRemovesIt(s[1..], c, rep);
    }
  }

  /** Replacing a single character that does not occur changes nothing. */
  lemma {:induction false} ReplaceAbsentChar(s: string, c: char, rep: string)
    requires c !in s
    ensures ReplaceAll(s, [c], rep) == s
    decreases |s|
  {
    if |s| >= 1 {
      assert s[..1] == [s[0]];
      ReplaceAbsentChar(s[1..], c, rep);
      assert s == [s[0]] + s[1..];
    }
  }
}
