/**
 * Postal-code extraction from a purchase address with the pattern
 * `\b\d{5}(?:-\d{4})?\b`, searched leftmost-first as Python's `re.search`
 * does.  Character classes are the ASCII ones: `\d` is `0-9`, `\w` is
 * `[A-Za-z0-9_]`.
 */
module ZipCode {
  import opened Wrappers

  predicate IsDigit(c: char) { '0' <= c <= '9' }

  predicate IsWordChar(c: char) {
    ('a' <= c <= 'z') || ('A' <= c <= 'Z') || IsDigit(c) || c == '_'
  }

  predicate AllDigits(s: string) {
    forall i :: 0 <= i < |s| ==> IsDigit(s[i])
  }

  /** `\b` at position `i`: exactly one of the neighbouring characters is a word character. */
  predicate WordBoundary(s: string, i: nat)
    requires i <= |s|
  {
    (i > 0 && IsWordChar(s[i - 1])) != (i < |s| && IsWordChar(s[i]))
  }

  /** Five digits, or five digits, a hyphen and four digits. */
  predicate ZipShape(z: string) {
    || (|z| == 5 && AllDigits(z))
    || (|z| == 10 && AllDigits(z[..5]) && z[5] == '-' && AllDigits(z[6..]))
  }

  /** The pattern can match `s[k..k+n]` (with both word boundaries). */
  predicate MatchesAt(s: string, k: nat, n: nat) {
    && (n == 5 || n == 10)
    && k + n <= |s|
    && WordBoundary(s, k)
    && ZipShape(s[k..k + n])
    && WordBoundary(s, k + n)
  }

  /**
   * The length of the match the regex engine reports when it starts at `k`:
   * the optional `-dddd` group is greedy, so it is taken when the whole
   * pattern still matches with it, and dropped (backtracking) otherwise.
   */
  function MatchLengthAt(s: string, k: nat): (r: Option<nat>)
    ensures r.Some? ==> MatchesAt(s, k, r.value)
    ensures r.None? <==> !MatchesAt(s, k, 5) && !MatchesAt(s, k, 10)
    ensures r == Some(5) ==> !MatchesAt(s, k, 10)
  {
    if MatchesAt(s, k, 10) then Some(10)
    else if MatchesAt(s, k, 5) then Some(5)
    else None
  }

  /** The leftmost start position at or after `k` where the pattern matches. */
  function SearchFrom(s: string, k: nat): (r: Option<nat>)
    requires k <= |s|
    ensures r.Some? ==> k <= r.value < |s| && MatchLengthAt(s, r.value).Some?
    ensures r.Some? ==> forall j :: k <= j < r.value ==> MatchLengthAt(s, j).None?
    ensures r.None? ==> forall j :: k <= j <= |s| ==> MatchLengthAt(s, j).None?
    decreases |s| - k
  {
    if MatchLengthAt(s, k).Some? then Some(k)
    else if k == |s| then None
    else SearchFrom(s, k + 1)
  }

  /**
   * The `Zip` column: the text of the first match in the address, or
   * missing when the address is missing or nothing matches.
   */
  function ExtractZip(address: Option<string>): (z: Option<string>)
    ensures address.None? ==> z.None?
    ensures address.Some? ==>
      (z.None? <==> forall k :: 0 <= k <= |address.value| ==> MatchLengthAt(address.value, k).None?)
    ensures z.Some? ==> ZipShape(z.value)
  {
    match address
    case None => None
    case Some(s) =>
      match SearchFrom(s, 0)
      case None => None
      case Some(k) => Some(s[k..k + MatchLengthAt(s, k).value])
  }

  /** Every extracted zip is five digits, or ten characters with the hyphen at index 5. */
  lemma ExtractedZipShape(address: Option<string>)
    requires ExtractZip(address).Some?
    ensures ZipShape(ExtractZip(address).value)
    ensures |ExtractZip(address).value| == 5 || |ExtractZip(address).value| == 10
  {
  }

  /**
   * Soundness: an extracted zip is a match of the pattern in the address,
   * standing between two non-word characters (or the ends of the address),
   * no match starts further left, and the short form is returned only when
   * the long form cannot match at the same place.
   */
  lemma ExtractZipSound(s: string)
    requires ExtractZip(Some(s)).Some?
    ensures exists k: nat, n: nat ::
      && MatchesAt(s, k, n)
      && ExtractZip(Some(s)).value == s[k..k + n]
      && (k == 0 || !IsWordChar(s[k - 1]))
      && (k + n == |s| || !IsWordChar(s[k + n]))
      && (forall j: nat, m: nat :: j < k ==> !MatchesAt(s, j, m))
      && (n == 5 ==> !MatchesAt(s, k, 10))
  {
    var k := SearchFrom(s, 0).value;
    var n := MatchLengthAt(s, k).value;
    assert IsDigit(s[k]) by { assert s[k..k + n][0] == s[k]; }
    assert IsDigit(s[k + n - 1]) by { assert s[k..k + n][n - 1] == s[k + n - 1]; }
    forall j: nat, m: nat | j < k
      ensures !MatchesAt(s, j, m)
    {
      assert MatchLengthAt(s, j).None?;
    }
  }

  /** Completeness: wherever the pattern can match, extraction finds a zip. */
  lemma ExtractZipComplete(s: string, k: nat, n: nat)
    requires MatchesAt(s, k, n)
    ensures ExtractZip(Some(s)).Some?
  {
    assert MatchLengthAt(s, k).Some?;
  }

  /** A non-digit among the five characters after `j` rules out a match at `j`. */
  lemma NoMatchAcrossNonDigit(s: string, j: nat, i: nat)
    requires j <= i < j + 5 && i < |s|
    requires !IsDigit(s[i])
    ensures MatchLengthAt(s, j).None?
  {
    if j + 5 <= |s| {
      assert s[j..j + 5][i - j] == s[i];
      assert j + 10 <= |s| ==> s[j..j + 10][..5][i - j] == s[i];
    }
  }

  /** A match at `k` with none to its left is the one extraction returns. */
  lemma LeftmostMatchFound(s: string, k: nat)
    requires k <= |s|
    requires MatchLengthAt(s, k).Some?
    requires forall j :: 0 <= j < k ==> MatchLengthAt(s, j).None?
    ensures SearchFrom(s, 0) == Some(k)
    ensures ExtractZip(Some(s)) == Some(s[k..k + MatchLengthAt(s, k).value])
  {
    SearchReaches(s, 0, k);
  }

  /** Searching from `j` with no match before `k` and a match at `k` stops at `k`. */
  lemma {:induction false} SearchReaches(s: string, j: nat, k: nat)
    requires j <= k <= |s| && MatchLengthAt(s, k).Some?
    requires forall i :: j <= i < k ==> MatchLengthAt(s, i).None?
    ensures SearchFrom(s, j) == Some(k)
    decreases k - j
  {
    if j < k {
      SearchReaches(s, j + 1, k);
    }
  }

  /** No address, no zip. */
  lemma MissingAddressNoZip()
    ensures ExtractZip(None) == None
  {
  }

  /** A six-digit run is one word, so no five-digit piece of it matches. */
  lemma SixDigitsRejected()
    ensures ExtractZip(Some("123456")) == None
  {
    var s := "123456";
    forall j: nat, m: nat | j <= |s|
      ensures !MatchesAt(s, j, m)
    {
    }
    assert SearchFrom(s, 0).None?;
  }

  /** A digit run glued to a letter fails the leading word boundary. */
  lemma LetterPrefixRejected()
    ensures ExtractZip(Some("A02110")) == None
  {
    var s := "A02110";
    forall j: nat, m: nat | j <= |s|
      ensures !MatchesAt(s, j, m)
    {
    }
    assert SearchFrom(s, 0).None?;
  }

  /**
   * When the four-digit suffix is followed by another digit the trailing
   * boundary fails, the optional group is dropped and the five-digit
   * prefix is returned.
   */
  lemma OverlongSuffixDropped()
    ensures ExtractZip(Some("02110-12345")) == Some("02110")
  {
    var s := "02110-12345";
    assert !MatchesAt(s, 0, 10) by { assert !WordBoundary(s, 10); }
    assert MatchesAt(s, 0, 5) by {
      assert s[0..5] == "02110";
      assert WordBoundary(s, 5);
    }
    assert MatchLengthAt(s, 0) == Some(5);
    assert SearchFrom(s, 0) == Some(0);
    assert s[0..5] == "02110";
  }

  /** A full ZIP+4 code at the end of an address is returned whole. */
  lemma ZipPlusFourKept()
    ensures ExtractZip(Some("MA 02110-1234")) == Some("02110-1234")
  {
    var s := "MA 02110-1234";
    assert s[3..13] == "02110-1234";
    assert MatchesAt(s, 3, 10);
    forall j: nat | j < 3
      ensures MatchLengthAt(s, j).None?
    {
      assert !IsDigit(s[j]);
      assert s[j..j + 5][0] == s[j];
    }
    assert SearchFrom(s, 0) == Some(3);
  }
}
