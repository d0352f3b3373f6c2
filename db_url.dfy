/**
 * The connection string `getDb` hands to the database driver: the
 * environment variable trimmed, and when a `postgres://` or
 * `postgresql://` URL is embedded in it (pasted together with a `psql`
 * command or inside quotes, say), just that URL. An empty result is a
 * configuration error that fails every route handler.
 */
module DbUrl {
  import opened Wrappers
  import opened Text

  /** A character of `[^'"\s]`: the URL runs up to the first quote or white space. */
  predicate UrlChar(c: char) {
    c != '\'' && c != '"' && !IsSpace(c)
  }

  /** The lower-case pattern `p` occurs in `s` at `i`, letters compared without case (the `i` flag). */
  predicate OccursAtFolded(s: string, p: string, i: int) {
    0 <= i && i + |p| <= |s| && forall k :: 0 <= k < |p| ==> LowerChar(s[i + k]) == p[k]
  }

  /**
   * The length of the text `postgres(?:ql)?://` matches at `i`: 13 for
   * `postgresql://`, 11 for `postgres://`, 0 when neither starts there.
   */
  function SchemeLength(s: string, i: int): (n: nat)
    ensures n == 13 || n == 11 || n == 0
    ensures n > 0 ==> 0 <= i && i + n <= |s|
  {
    if OccursAtFolded(s, "postgresql://", i) then 13
    else if OccursAtFolded(s, "postgres://", i) then 11
    else 0
  }

  /** How many characters from `j` on belong to the URL: the greedy `[^'"\s]+`. */
  function UrlRun(s: string, j: nat): (n: nat)
    requires j <= |s|
    ensures j + n <= |s|
    ensures forall k :: j <= k < j + n ==> UrlChar(s[k])
    ensures j + n == |s| || !UrlChar(s[j + n])
    decreases |s| - j
  {
    if j < |s| && UrlChar(s[j]) then 1 + UrlRun(s, j + 1) else 0
  }

  /** The regular expression matches at `i`: a scheme followed by at least one URL character. */
  predicate MatchesAt(s: string, i: int) {
    0 <= i < |s| && SchemeLength(s, i) > 0 && UrlRun(s, i + SchemeLength(s, i)) > 0
  }

  /** Where the match at `i` ends. */
  function MatchEnd(s: string, i: int): (e: nat)
    requires MatchesAt(s, i)
    ensures i < e <= |s|
  {
    i + SchemeLength(s, i) + UrlRun(s, i + SchemeLength(s, i))
  }

  /** The leftmost position at or after `i` where the expression matches. */
  function FirstMatch(s: string, i: nat): (r: Option<nat>)
    ensures r.Some? ==> i <= r.value && MatchesAt(s, r.value)
    ensures forall j :: i <= j && (r.None? || j < r.value) ==> !MatchesAt(s, j)
    decreases |s| - i
  {
    if i >= |s| then None
    else if MatchesAt(s, i) then Some(i)
    else FirstMatch(s, i + 1)
  }

  /** `String(raw || "").trim()`: an unset variable reads as the empty text. */
  function Setting(raw: Option<string>): string {
    Trim(raw.GetOr(""))
  }

  /**
   * `normalizeDatabaseUrl`: "" for a blank setting, else the leftmost
   * embedded URL, else the trimmed setting. The result never starts or ends
   * with white space, and is empty exactly when the setting is blank.
   */
  function NormalizeDatabaseUrl(raw: Option<string>): (r: string)
    ensures Trimmed(r)
    ensures r == [] <==> Setting(raw) == []
    ensures FirstMatch(Setting(raw), 0).None? ==> r == Setting(raw)
    ensures FirstMatch(Setting(raw), 0).Some? ==>
      var value, i := Setting(raw), FirstMatch(Setting(raw), 0).value;
      r == value[i..MatchEnd(value, i)]
  {
    var value := Setting(raw);
    TrimIsTrimmed(raw.GetOr(""));
    if value == [] then ""
    else
      match FirstMatch(value, 0)
      case Some(i) =>
        MatchTrimmed(value, i);
        value[i..MatchEnd(value, i)]
      case None => value
  }

  /** A match starts with a letter of the scheme and ends with a URL character, so neither end is white space. */
  lemma MatchTrimmed(s: string, i: int)
    requires MatchesAt(s, i)
    ensures Trimmed(s[i..MatchEnd(s, i)])
  {
    var n := SchemeLength(s, i);
    if n == 13 {
      assert LowerChar(s[i + 0]) == "postgresql://"[0];
    } else {
      assert LowerChar(s[i + 0]) == "postgres://"[0];
    }
    var e := MatchEnd(s, i);
    assert UrlChar(s[e - 1]);
  }

  /** `getDb`: the driver's connection string, or the thrown "DATABASE_URL no configurada". */
  function GetDb(raw: Option<string>): (r: Result<string>)
    ensures r.ServerError? <==> forall k :: 0 <= k < |raw.GetOr("")| ==> IsSpace(raw.GetOr("")[k])
    ensures r.Ok? ==> r.value != [] && r.value == NormalizeDatabaseUrl(raw)
  {
    TrimEmptyIff(raw.GetOr(""));
    var url := NormalizeDatabaseUrl(raw);
    if url == [] then ServerError else Ok(url)
  }

  /** The extracted URL starts with its scheme, written in any case, and runs to its end in URL characters. */
  lemma ExtractedShape(raw: Option<string>)
    requires FirstMatch(Setting(raw), 0).Some?
    ensures var r := NormalizeDatabaseUrl(raw);
      (OccursAtFolded(r, "postgresql://", 0) || OccursAtFolded(r, "postgres://", 0)) &&
      forall k :: SchemeLength(r, 0) <= k < |r| ==> UrlChar(r[k])
    ensures SchemeLength(NormalizeDatabaseUrl(raw), 0) > 0
  {
    var value, i := Setting(raw), FirstMatch(Setting(raw), 0).value;
    var r := NormalizeDatabaseUrl(raw);
    PrefixMatch(value, i, r);
  }

  /** The match at `i`, read back from its own text, is the same scheme followed by URL characters only. */
  lemma PrefixMatch(value: string, i: int, r: string)
    requires MatchesAt(value, i) && r == value[i..MatchEnd(value, i)]
    ensures SchemeLength(r, 0) == SchemeLength(value, i)
    ensures forall k :: SchemeLength(r, 0) <= k < |r| ==> UrlChar(r[k])
    ensures MatchesAt(r, 0) && MatchEnd(r, 0) == |r|
  {
    var n := SchemeLength(value, i);
    assert forall k :: 0 <= k < |r| ==> r[k] == value[i + k];
    if OccursAtFolded(r, "postgresql://", 0) {
      assert OccursAtFolded(value, "postgresql://", i);
    }
    if n == 13 {
      assert OccursAtFolded(r, "postgresql://", 0);
    } else {
      assert OccursAtFolded(r, "postgres://", 0);
    }
    UrlRunToEnd(r, n);
  }

  /** When every character from `j` on is a URL character, the run reaches the end. */
  lemma UrlRunToEnd(s: string, j: nat)
    requires j <= |s| && forall k :: j <= k < |s| ==> UrlChar(s[k])
    ensures UrlRun(s, j) == |s| - j
    decreases |s| - j
  {
    if j < |s| {
      UrlRunToEnd(s, j + 1);
    }
  }

  /** Normalising an already normalised connection string changes nothing. */
  lemma NormalizeIdempotent(raw: Option<string>)
    ensures NormalizeDatabaseUrl(Some(NormalizeDatabaseUrl(raw))) == NormalizeDatabaseUrl(raw)
  {
    var value := Setting(raw);
    var r := NormalizeDatabaseUrl(raw);
    TrimOfTrimmed(r);
    assert Setting(Some(r)) == r;
    if r != [] {
      match FirstMatch(value, 0)
      case Some(i) =>
        PrefixMatch(value, i, r);
        assert FirstMatch(r, 0) == Some(0);
      case None =>
    }
  }
}
