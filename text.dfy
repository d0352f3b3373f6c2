/**
 * Strings as sequences of characters: white space, trimming, ASCII case
 * mapping, substring search and lexicographic order.
 *
 * The alphabet is deliberately small. `IsSpace` stands for the white space
 * of JavaScript's `\s` and `String.prototype.trim`; case mapping touches only
 * ASCII letters; `Less` is plain code-point order, which is how the model
 * reads both `localeCompare` and SQL `ORDER BY` on text.
 */
module Text {

  /** White space as JavaScript's `trim` and `\s` see it (restricted to a small alphabet). */
  predicate IsSpace(c: char) {
    c == ' ' || c == '\t' || c == '\n' || c == '\r' || c == '\U{000B}' || c == '\U{000C}' || c == '\U{00A0}'
  }

  /** A character `trim` removes: any white space in JavaScript, only the blank in SQL's `TRIM`. */
  predicate Trimmable(c: char, sqlBlanksOnly: bool) {
    if sqlBlanksOnly then c == ' ' else IsSpace(c)
  }

  /** Drops the leading trimmable characters. */
  function TrimStart(s: string, sqlBlanksOnly: bool): (r: string)
    ensures |r| <= |s| && r == s[|s| - |r|..]
    ensures forall i :: 0 <= i < |s| - |r| ==> Trimmable(s[i], sqlBlanksOnly)
    ensures r != [] ==> !Trimmable(r[0], sqlBlanksOnly)
  {
    if s != [] && Trimmable(s[0], sqlBlanksOnly) then TrimStart(s[1..], sqlBlanksOnly) else s
  }

  /** Drops the trailing trimmable characters. */
  function TrimEnd(s: string, sqlBlanksOnly: bool): (r: string)
    ensures |r| <= |s| && r == s[..|r|]
    ensures forall i :: |r| <= i < |s| ==> Trimmable(s[i], sqlBlanksOnly)
    ensures r != [] ==> !Trimmable(r[|r| - 1], sqlBlanksOnly)
  {
    if s != [] && Trimmable(s[|s| - 1], sqlBlanksOnly) then TrimEnd(s[..|s| - 1], sqlBlanksOnly) else s
  }

  /** JavaScript's `String.prototype.trim`. */
  function Trim(s: string): string {
    TrimEnd(TrimStart(s, false), false)
  }

  /** PostgreSQL's one-argument `TRIM`, which removes blanks (U+0020) only. */
  function SqlTrim(s: string): string {
    TrimEnd(TrimStart(s, true), true)
  }

  /** Neither end of `s` is white space. */
  predicate Trimmed(s: string) {
    s == [] || (!IsSpace(s[0]) && !IsSpace(s[|s| - 1]))
  }

  lemma TrimIsTrimmed(s: string)
    ensures Trimmed(Trim(s))
  {
    var t := TrimStart(s, false);
    var r := TrimEnd(t, false);
    if r != [] {
      assert r[0] == t[0];
    }
  }

  /** Trimming a string whose ends are not white space changes nothing. */
  lemma TrimOfTrimmed(s: string)
    requires Trimmed(s)
    ensures Trim(s) == s
  {
    assert TrimStart(s, false) == s;
    assert TrimEnd(s, false) == s;
  }

  lemma TrimIdempotent(s: string)
    ensures Trim(Trim(s)) == Trim(s)
  {
    TrimIsTrimmed(s);
    TrimOfTrimmed(Trim(s));
  }

  /** `trim` yields the empty string exactly when every character is white space. */
  lemma TrimEmptyIff(s: string)
    ensures Trim(s) == [] <==> forall i :: 0 <= i < |s| ==> IsSpace(s[i])
  {
    if forall i :: 0 <= i < |s| ==> IsSpace(s[i]) {
      TrimStartAllSpace(s);
    }
  }

  lemma TrimStartAllSpace(s: string)
    requires forall i :: 0 <= i < |s| ==> IsSpace(s[i])
    ensures TrimStart(s, false) == []
  {
    if s != [] {
      TrimStartAllSpace(s[1..]);
    }
  }

  /** The trimmed text occurs inside the original, so it is one of its substrings. */
  lemma TrimIsSubstring(s: string) returns (a: nat)
    ensures a + |Trim(s)| <= |s| && s[a..a + |Trim(s)|] == Trim(s)
  {
    var t := TrimStart(s, false);
    a := |s| - |t|;
  }

  /**
   * Two strings of one length that agree character by character up to ASCII
   * case, and so have their white space at the same positions.
   */
  predicate SameUpperCase(s: string, t: string) {
    |s| == |t| && forall i :: 0 <= i < |s| ==> UpperChar(s[i]) == UpperChar(t[i]) && (IsSpace(s[i]) <==> IsSpace(t[i]))
  }

  lemma {:induction false} TrimStartSameUpperCase(s: string, t: string)
    requires SameUpperCase(s, t)
    ensures SameUpperCase(TrimStart(s, false), TrimStart(t, false))
  {
    if s != [] && IsSpace(s[0]) {
      assert SameUpperCase(s[1..], t[1..]);
      TrimStartSameUpperCase(s[1..], t[1..]);
    }
  }

  lemma {:induction false} TrimEndSameUpperCase(s: string, t: string)
    requires SameUpperCase(s, t)
    ensures SameUpperCase(TrimEnd(s, false), TrimEnd(t, false))
  {
    if s != [] && IsSpace(s[|s| - 1]) {
      assert SameUpperCase(s[..|s| - 1], t[..|t| - 1]);
      TrimEndSameUpperCase(s[..|s| - 1], t[..|t| - 1]);
    }
  }

  /** Trimming and upper-casing strings that agree up to case gives one text. */
  lemma TrimUpperSameUpperCase(s: string, t: string)
    requires SameUpperCase(s, t)
    ensures ToUpper(Trim(s)) == ToUpper(Trim(t))
  {
    TrimStartSameUpperCase(s, t);
    TrimEndSameUpperCase(TrimStart(s, false), TrimStart(t, false));
  }

  /** Where no character is white space other than the blank, both trims agree. */
  lemma TrimsAgree(s: string)
    requires forall i :: 0 <= i < |s| ==> (IsSpace(s[i]) ==> s[i] == ' ')
    ensures Trim(s) == SqlTrim(s)
  {
    TrimStartAgree(s);
    var t := TrimStart(s, false);
    TrimEndAgree(t);
  }

  lemma TrimStartAgree(s: string)
    requires forall i :: 0 <= i < |s| ==> (IsSpace(s[i]) ==> s[i] == ' ')
    ensures TrimStart(s, false) == TrimStart(s, true)
  {
    if s != [] && IsSpace(s[0]) {
      TrimStartAgree(s[1..]);
    }
  }

  lemma TrimEndAgree(s: string)
    requires forall i :: 0 <= i < |s| ==> (IsSpace(s[i]) ==> s[i] == ' ')
    ensures TrimEnd(s, false) == TrimEnd(s, true)
  {
    if s != [] && IsSpace(s[|s| - 1]) {
      TrimEndAgree(s[..|s| - 1]);
    }
  }

  /** ASCII `toUpperCase` / SQL `UPPER`. */
  function UpperChar(c: char): char {
    if 'a' <= c <= 'z' then (c as int - 32) as char else c
  }

  /** ASCII `toLowerCase`. */
  function LowerChar(c: char): char {
    if 'A' <= c <= 'Z' then (c as int + 32) as char else c
  }

  /** ASCII case mapping leaves white space alone and makes no letter of another case. */
  lemma CaseMapping(c: char)
    ensures !('a' <= UpperChar(c) <= 'z') && !('A' <= LowerChar(c) <= 'Z')
    ensures (IsSpace(UpperChar(c)) <==> IsSpace(c)) && (IsSpace(LowerChar(c)) <==> IsSpace(c))
    ensures UpperChar(UpperChar(c)) == UpperChar(c) && UpperChar(LowerChar(c)) == UpperChar(c)
  {
  }

  function ToUpper(s: string): (r: string)
    ensures |r| == |s| && forall i :: 0 <= i < |s| ==> r[i] == UpperChar(s[i])
  {
    seq(|s|, i requires 0 <= i < |s| => UpperChar(s[i]))
  }

  /** Upper-casing keeps the white space where it is and leaves no lower-case ASCII letter. */
  lemma UpperKeepsSpacing(s: string)
    ensures forall i :: 0 <= i < |s| ==> (IsSpace(s[i]) <==> IsSpace(ToUpper(s)[i])) && !('a' <= ToUpper(s)[i] <= 'z')
  {
    forall i | 0 <= i < |s|
      ensures (IsSpace(s[i]) <==> IsSpace(ToUpper(s)[i])) && !('a' <= ToUpper(s)[i] <= 'z')
    {
      CaseMapping(s[i]);
    }
  }

  /** Both case mappings keep a string's upper-case form. */
  lemma CaseMappingsSameUpperCase(s: string)
    ensures SameUpperCase(s, ToLower(s)) && SameUpperCase(s, ToUpper(s))
  {
    forall i | 0 <= i < |s| ensures UpperChar(s[i]) == UpperChar(ToLower(s)[i]) == UpperChar(ToUpper(s)[i]) {
      CaseMapping(s[i]);
    }
    forall i | 0 <= i < |s| ensures (IsSpace(s[i]) <==> IsSpace(ToLower(s)[i])) && (IsSpace(s[i]) <==> IsSpace(ToUpper(s)[i])) {
      CaseMapping(s[i]);
    }
  }

  function ToLower(s: string): (r: string)
    ensures |r| == |s| && forall i :: 0 <= i < |s| ==> r[i] == LowerChar(s[i])
  {
    seq(|s|, i requires 0 <= i < |s| => LowerChar(s[i]))
  }

  /** The first index of `c` in `s`, or `|s|` when there is none. */
  function IndexOf(s: string, c: char): (k: nat)
    ensures k <= |s| && (k < |s| ==> s[k] == c)
    ensures forall i :: 0 <= i < k ==> s[i] != c
  {
    if s == [] then 0 else if s[0] == c then 0 else 1 + IndexOf(s[1..], c)
  }

  /** The first `sep` of `x + [sep] + y` is the one after `x` when `x` has none. */
  lemma IndexOfJoin(x: string, sep: char, y: string)
    requires sep !in x
    ensures IndexOf(x + [sep] + y, sep) == |x|
  {
    var s := x + [sep] + y;
    assert s[|x|] == sep;
    assert forall i :: 0 <= i < |x| ==> s[i] == x[i];
  }

  /** Splitting at the first separator of a joined text recovers both parts. */
  lemma SplitAtSeparator(x: string, sep: char, y: string, x': string, y': string)
    requires sep !in x && sep !in x' && x + [sep] + y == x' + [sep] + y'
    ensures x == x' && y == y'
  {
    var s := x + [sep] + y;
    IndexOfJoin(x, sep, y);
    IndexOfJoin(x', sep, y');
    assert x == s[..|x|] && x' == s[..|x'|];
    assert y == s[|x| + 1..] && y' == s[|x'| + 1..];
  }

  /** `p` occurs in `s` starting at index `i`. */
  predicate OccursAt(s: string, p: string, i: int) {
    0 <= i <= |s| - |p| && s[i..i + |p|] == p
  }

  /** JavaScript's `String.prototype.includes`. */
  predicate Contains(s: string, p: string) {
    exists i | 0 <= i <= |s| - |p| :: OccursAt(s, p, i)
  }

  /** Every character of a contained pattern is a character of the text. */
  lemma ContainsChars(s: string, p: string)
    ensures Contains(s, p) ==> forall k :: 0 <= k < |p| ==> p[k] in s
  {
    if Contains(s, p) {
      var i :| 0 <= i <= |s| - |p| && OccursAt(s, p, i);
      forall k | 0 <= k < |p| ensures p[k] in s {
        assert s[i..i + |p|][k] == s[i + k];
      }
    }
  }

  /**
   * A pattern without the separator occurs in `a + [sep] + b` exactly when
   * it occurs in `a` or in `b`: no occurrence can straddle the separator.
   */
  lemma ContainsAcrossSeparator(a: string, sep: char, b: string, p: string)
    requires sep !in p
    ensures Contains(a + [sep] + b, p) <==> Contains(a, p) || Contains(b, p)
  {
    var s := a + [sep] + b;
    if Contains(s, p) {
      var i :| 0 <= i <= |s| - |p| && OccursAt(s, p, i);
      OccurrenceSide(a, sep, b, p, i);
      if i + |p| <= |a| {
        assert a[i..i + |p|] == s[i..i + |p|];
        assert OccursAt(a, p, i);
      } else {
        assert s[|a| + 1..] == b;
        assert s[i..i + |p|] == s[|a| + 1..][i - |a| - 1..i - |a| - 1 + |p|];
        assert OccursAt(b, p, i - |a| - 1);
      }
    }
    if Contains(a, p) {
      var i :| 0 <= i <= |a| - |p| && OccursAt(a, p, i);
      assert s[i..i + |p|] == a[i..i + |p|];
      assert OccursAt(s, p, i);
    }
    if Contains(b, p) {
      var i :| 0 <= i <= |b| - |p| && OccursAt(b, p, i);
      assert s[|a| + 1..] == b;
      assert s[|a| + 1 + i..|a| + 1 + i + |p|] == s[|a| + 1..][i..i + |p|];
      assert OccursAt(s, p, |a| + 1 + i);
    }
  }

  /** An occurrence in `a + [sep] + b` lies inside `a`, inside `b`, or covers the separator. */
  lemma OccurrenceSide(a: string, sep: char, b: string, p: string, i: int)
    requires OccursAt(a + [sep] + b, p, i)
    ensures i + |p| <= |a| || i > |a| || sep in p
  {
    var s := a + [sep] + b;
    if i <= |a| < i + |p| {
      assert p[|a| - i] == s[i..i + |p|][|a| - i] == s[|a|] == sep;
    }
  }

  /** Lexicographic (code-point) order on strings: `localeCompare(a, b) < 0`. */
  predicate Less(a: string, b: string) {
    |b| > 0 && (|a| == 0 || (if a[0] == b[0] then Less(a[1..], b[1..]) else a[0] < b[0]))
  }

  predicate LessEq(a: string, b: string) {
    a == b || Less(a, b)
  }

  lemma LessIrreflexive(a: string)
    ensures !Less(a, a)
  {
  }

  lemma LessAsymmetric(a: string, b: string)
    ensures Less(a, b) ==> !Less(b, a)
  {
  }

  lemma LessTransitive(a: string, b: string, c: string)
    ensures Less(a, b) && Less(b, c) ==> Less(a, c)
  {
    if Less(a, b) && Less(b, c) && |a| > 0 && a[0] == b[0] && b[0] == c[0] {
      LessTransitive(a[1..], b[1..], c[1..]);
    }
  }

  lemma LessTotal(a: string, b: string)
    ensures a == b || Less(a, b) || Less(b, a)
  {
    if |a| > 0 && |b| > 0 && a[0] == b[0] {
      LessTotal(a[1..], b[1..]);
      if a[1..] == b[1..] {
        assert a == [a[0]] + a[1..] && b == [b[0]] + b[1..];
      }
    }
  }

  /** With prefixes of equal length, the prefixes decide unless they are equal. */
  lemma {:induction false} LessConcat(x: string, u: string, y: string, v: string)
    requires |x| == |y|
    ensures Less(x + u, y + v) <==> Less(x, y) || (x == y && Less(u, v))
  {
    if |x| > 0 {
      assert (x + u)[0] == x[0] && (y + v)[0] == y[0];
      assert (x + u)[1..] == x[1..] + u && (y + v)[1..] == y[1..] + v;
      LessConcat(x[1..], u, y[1..], v);
      if x[0] == y[0] && x[1..] == y[1..] {
        assert x == y;
      }
      if x == y {
        assert x[1..] == y[1..];
      }
    } else {
      assert x + u == u && y + v == v;
    }
  }
}
