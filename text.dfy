/** The JavaScript string operations the search logic relies on:
    `String.prototype.trim`, `toLowerCase` (ASCII letters only) and `includes`. */
module Text {

  /** WhiteSpace and LineTerminator code points of ECMA-262 (6th edition, sections 11.2
      and 11.3): the characters `trim` removes. The Zs category is written out. */
  predicate IsWhitespace(c: char) {
    || c == '\t' || c == '\U{000B}' || c == '\U{000C}' || c == ' ' || c == '\U{00A0}'
    || c == '\U{FEFF}' || c == '\U{1680}' || ('\U{2000}' <= c <= '\U{200A}')
    || c == '\U{202F}' || c == '\U{205F}' || c == '\U{3000}'
    || c == '\n' || c == '\r' || c == '\U{2028}' || c == '\U{2029}'
  }

  predicate AllWhitespace(s: string) {
    forall i | 0 <= i < |s| :: IsWhitespace(s[i])
  }

  /** A string with no white space at either end: what `trim` produces. */
  predicate IsTrimmed(s: string) {
    s == [] || (!IsWhitespace(s[0]) && !IsWhitespace(s[|s| - 1]))
  }

  lemma AllWhitespaceConcat(a: string, b: string)
    ensures AllWhitespace(a + b) <==> AllWhitespace(a) && AllWhitespace(b)
  {
    if AllWhitespace(a) && AllWhitespace(b) {
      forall i | 0 <= i < |a + b| ensures IsWhitespace((a + b)[i]) {
        if i >= |a| { assert (a + b)[i] == b[i - |a|]; }
      }
    }
    if AllWhitespace(a + b) {
      forall i | 0 <= i < |a| ensures IsWhitespace(a[i]) {
        assert (a + b)[i] == a[i];
      }
      forall i | 0 <= i < |b| ensures IsWhitespace(b[i]) {
        assert (a + b)[|a| + i] == b[i];
      }
    }
  }

  /** `s` is all white space exactly when both sides of any cut through it are. */
  lemma AllWhitespaceSplit(s: string, i: nat)
    requires i <= |s|
    ensures AllWhitespace(s) <==> AllWhitespace(s[..i]) && AllWhitespace(s[i..])
  {
    if AllWhitespace(s[..i]) && AllWhitespace(s[i..]) {
      forall k | 0 <= k < |s| ensures IsWhitespace(s[k]) {
        if k < i { assert s[..i][k] == s[k]; } else { assert s[i..][k - i] == s[k]; }
      }
    }
  }

  /** `s` without its leading white space: a suffix of `s`, everything cut off is white space. */
  function TrimStart(s: string): (r: string)
    ensures |r| <= |s| && r == s[|s| - |r|..]
    ensures AllWhitespace(s[..|s| - |r|])
    ensures r == [] || !IsWhitespace(r[0])
  {
    if |s| > 0 && IsWhitespace(s[0]) then
      var r := TrimStart(s[1..]);
      assert s[..|s| - |r|] == [s[0]] + s[1..][..|s| - 1 - |r|];
      r
    else
      s
  }

  /** `s` without its trailing white space: a prefix of `s`, everything cut off is white space. */
  function TrimEnd(s: string): (r: string)
    ensures |r| <= |s| && r == s[..|r|]
    ensures AllWhitespace(s[|r|..])
    ensures r == [] || !IsWhitespace(r[|r| - 1])
  {
    if |s| > 0 && IsWhitespace(s[|s| - 1]) then
      var r := TrimEnd(s[..|s| - 1]);
      assert s[|r|..] == s[..|s| - 1][|r|..] + [s[|s| - 1]];
      r
    else
      s
  }

  /** JavaScript's `s.trim()`: the infix of `s` that is left once white space is removed
      from both ends. It is empty exactly when `s` is all white space. */
  function Trim(s: string): (r: string)
    ensures IsTrimmed(r)
    ensures r == [] <==> AllWhitespace(s)
    ensures exists i :: 0 <= i <= |s| && AllWhitespace(s[..i]) && r <= s[i..] && AllWhitespace(s[i..][|r|..])
  {
    TrimEndOfTrimStart(s);
    TrimEnd(TrimStart(s))
  }

  /** What removing white space first at the front, then at the back, leaves of `s`. */
  lemma TrimEndOfTrimStart(s: string)
    ensures IsTrimmed(TrimEnd(TrimStart(s)))
    ensures TrimEnd(TrimStart(s)) == [] <==> AllWhitespace(s)
    ensures var i := |s| - |TrimStart(s)|;
      AllWhitespace(s[..i]) && TrimEnd(TrimStart(s)) <= s[i..] && AllWhitespace(s[i..][|TrimEnd(TrimStart(s))|..])
  {
    TrimEndKeepsFirst(TrimStart(s));
    TrimBothEmptyIff(s);
    TrimBothIsInfix(s);
  }

  /** Trimming both ends leaves nothing exactly when `s` is all white space. */
  lemma TrimBothEmptyIff(s: string)
    ensures TrimEnd(TrimStart(s)) == [] <==> AllWhitespace(s)
  {
    var t := TrimStart(s);
    TrimEndKeepsFirst(t);
    WhitespaceAfterPrefix(s, |s| - |t|, t);
  }

  /** Past a white-space prefix, `s` is all white space exactly when its rest `t` is. */
  lemma WhitespaceAfterPrefix(s: string, i: nat, t: string)
    requires i <= |s| && t == s[i..] && AllWhitespace(s[..i])
    ensures AllWhitespace(t) <==> AllWhitespace(s)
  {
    AllWhitespaceSplit(s, i);
  }

  /** Trimming both ends leaves an infix of `s` with only white space around it. */
  lemma TrimBothIsInfix(s: string)
    ensures var i := |s| - |TrimStart(s)|;
      AllWhitespace(s[..i]) && TrimEnd(TrimStart(s)) <= s[i..] && AllWhitespace(s[i..][|TrimEnd(TrimStart(s))|..])
  {
    var t := TrimStart(s);
    assert s[|s| - |t|..] == t;
  }

  /** Removing trailing white space from a string that starts with a non-white code point
      keeps that code point. */
  lemma TrimEndKeepsFirst(t: string)
    requires t == [] || !IsWhitespace(t[0])
    ensures var r := TrimEnd(t); r == [] || !IsWhitespace(r[0])
    ensures TrimEnd(t) == [] <==> AllWhitespace(t)
  {
    var r := TrimEnd(t);
    if r != [] {
      assert r[0] == t[0];
    }
    assert r == [] ==> t[|r|..] == t;
  }

  lemma {:induction false} TrimStartOfWhitespacePrefix(w: string, s: string)
    requires AllWhitespace(w)
    ensures TrimStart(w + s) == TrimStart(s)
  {
    if w != [] {
      assert (w + s)[0] == w[0];
      assert (w + s)[1..] == w[1..] + s;
      assert TrimStart(w + s) == TrimStart((w + s)[1..]);
      assert w == [w[0]] + w[1..];
      AllWhitespaceConcat([w[0]], w[1..]);
      TrimStartOfWhitespacePrefix(w[1..], s);
    } else {
      assert w + s == s;
    }
  }

  lemma {:induction false} TrimEndOfWhitespaceSuffix(s: string, w: string)
    requires AllWhitespace(w)
    ensures TrimEnd(s + w) == TrimEnd(s)
  {
    if w != [] {
      assert (s + w)[|s + w| - 1] == w[|w| - 1];
      assert (s + w)[..|s + w| - 1] == s + w[..|w| - 1];
      assert TrimEnd(s + w) == TrimEnd((s + w)[..|s + w| - 1]);
      assert w == w[..|w| - 1] + [w[|w| - 1]];
      AllWhitespaceConcat(w[..|w| - 1], [w[|w| - 1]]);
      TrimEndOfWhitespaceSuffix(s, w[..|w| - 1]);
    } else {
      assert s + w == s;
    }
  }

  lemma {:induction false} TrimStartKeepsSuffix(s: string, t: string)
    requires !AllWhitespace(s)
    ensures TrimStart(s + t) == TrimStart(s) + t
  {
    if IsWhitespace(s[0]) {
      assert (s + t)[1..] == s[1..] + t;
      assert s == [s[0]] + s[1..];
      AllWhitespaceConcat([s[0]], s[1..]);
      TrimStartKeepsSuffix(s[1..], t);
    }
  }

  lemma {:induction false} TrimEndKeepsPrefix(t: string, s: string)
    requires !AllWhitespace(s)
    ensures TrimEnd(t + s) == t + TrimEnd(s)
  {
    if IsWhitespace(s[|s| - 1]) {
      assert (t + s)[..|t + s| - 1] == t + s[..|s| - 1];
      assert s == s[..|s| - 1] + [s[|s| - 1]];
      AllWhitespaceConcat(s[..|s| - 1], [s[|s| - 1]]);
      TrimEndKeepsPrefix(t, s[..|s| - 1]);
    }
  }

  /** Trailing white space never changes the result of `trim`. */
  lemma TrimIgnoresWhitespaceSuffix(s: string, w: string)
    requires AllWhitespace(w)
    ensures Trim(s + w) == Trim(s)
  {
    AllWhitespaceConcat(s, w);
    if !AllWhitespace(s) {
      TrimStartKeepsSuffix(s, w);
      TrimEndOfWhitespaceSuffix(TrimStart(s), w);
    }
  }

  /** Leading white space never changes the result of `trim`. */
  lemma TrimIgnoresWhitespacePrefix(w: string, s: string)
    requires AllWhitespace(w)
    ensures Trim(w + s) == Trim(s)
  {
    TrimStartOfWhitespacePrefix(w, s);
  }

  /** `trim` leaves a string without white space at its ends as it is. */
  lemma TrimOfTrimmed(s: string)
    requires IsTrimmed(s)
    ensures Trim(s) == s
  {
  }

  /** `toLowerCase` on one code point, for the ASCII letters; every other code point is its
      own lower case here. */
  function LowerChar(c: char): (l: char)
    ensures 'A' <= c <= 'Z' ==> 'a' <= l <= 'z' && l as int - c as int == 32
    ensures !('A' <= c <= 'Z') ==> l == c
  {
    if 'A' <= c <= 'Z' then (c as int + 32) as char else c
  }

  /** `s.toLowerCase()`, code point by code point. */
  function Lower(s: string): (r: string)
    ensures |r| == |s|
    ensures forall i :: 0 <= i < |s| ==> r[i] == LowerChar(s[i])
  {
    if s == [] then [] else [LowerChar(s[0])] + Lower(s[1..])
  }

  lemma LowerIsIdempotent(s: string)
    ensures Lower(Lower(s)) == Lower(s)
  {
    assert forall i :: 0 <= i < |s| ==> Lower(Lower(s))[i] == Lower(s)[i];
  }

  /** `needle` occurs in `hay` starting at index `i`. */
  ghost predicate OccursAt(hay: string, needle: string, i: int) {
    0 <= i && i + |needle| <= |hay| && hay[i..i + |needle|] == needle
  }

  /** Lower-casing works one character at a time, so an occurrence survives it. */
  lemma LowerOccursAt(hay: string, needle: string, i: int)
    requires OccursAt(hay, needle, i)
    ensures OccursAt(Lower(hay), Lower(needle), i)
  {
    var lh, ln := Lower(hay), Lower(needle);
    forall k | 0 <= k < |needle| ensures lh[i..i + |needle|][k] == ln[k] {
      assert hay[i..i + |needle|][k] == needle[k];
    }
  }

  /** JavaScript's `hay.includes(needle)`, searching from the front. */
  predicate Includes(hay: string, needle: string)
    ensures needle == [] ==> Includes(hay, needle)
    ensures Includes(hay, needle) ==> |needle| <= |hay|
    decreases |hay|
  {
    needle <= hay || (hay != [] && Includes(hay[1..], needle))
  }

  /** `includes` holds exactly when the needle occurs at some index of the haystack; the
      empty string occurs in every string. */
  lemma {:induction false} IncludesIff(hay: string, needle: string)
    ensures Includes(hay, needle) <==> exists i :: OccursAt(hay, needle, i)
    decreases |hay|
  {
    if needle <= hay {
      assert OccursAt(hay, needle, 0);
    } else if hay != [] {
      IncludesIff(hay[1..], needle);
      if Includes(hay[1..], needle) {
        var i :| OccursAt(hay[1..], needle, i);
        assert OccursAt(hay, needle, i + 1);
      } else {
        assert !OccursAt(hay, needle, 0);
        forall i | OccursAt(hay, needle, i) ensures OccursAt(hay[1..], needle, i - 1) {
          assert hay[1..][i - 1..i - 1 + |needle|] == hay[i..i + |needle|];
        }
      }
    }
  }

  /** A needle holding a code point that the haystack lacks is not included in it. */
  lemma MissingCharExcludes(hay: string, needle: string, c: char)
    requires c in needle && c !in hay
    ensures !Includes(hay, needle)
  {
    IncludesIff(hay, needle);
    var k :| 0 <= k < |needle| && needle[k] == c;
    forall i | 0 <= i && i + |needle| <= |hay| ensures !OccursAt(hay, needle, i) {
      assert hay[i..i + |needle|][k] == hay[i + k];
      assert hay[i + k] in hay;
    }
  }
}
