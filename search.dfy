/**
 * `filter_dataframe`: the free-text search under the tables.  The search
 * term is matched as a literal substring, ignoring ASCII case; a row whose
 * searched field is missing never matches.
 */
module TextSearch {
  import opened Wrappers
  import opened Records
  import opened Selection

  const ProductName := "Product Name"
  const AddressOrZip := "Address or ZIP"

  /** ASCII lower-casing of one character: capitals move down 32 code points, everything else stays. */
  function LowerChar(c: char): (r: char)
    ensures 'A' <= c <= 'Z' ==> r as int == c as int + 32 && 'a' <= r <= 'z'
    ensures !('A' <= c <= 'Z') ==> r == c
  {
    if 'A' <= c <= 'Z' then (c as int - 'A' as int + 'a' as int) as char else c
  }

  /** ASCII upper-casing of one character, the inverse direction. */
  function UpperChar(c: char): (r: char)
    ensures 'a' <= c <= 'z' ==> r as int == c as int - 32 && 'A' <= r <= 'Z'
    ensures !('a' <= c <= 'z') ==> r == c
  {
    if 'a' <= c <= 'z' then (c as int - 'a' as int + 'A' as int) as char else c
  }

  function Lower(s: string): (r: string)
    ensures |r| == |s|
    ensures forall i :: 0 <= i < |s| ==> r[i] == LowerChar(s[i])
  {
    seq(|s|, i requires 0 <= i < |s| => LowerChar(s[i]))
  }

  /** `t` occurs in `s` at position `k`. */
  predicate OccursAt(s: string, t: string, k: int) {
    0 <= k && k + |t| <= |s| && s[k..k + |t|] == t
  }

  /** Substring test, scanning start positions left to right. */
  function Contains(s: string, t: string): bool {
    if |t| > |s| then false
    else if s[..|t|] == t then true
    else Contains(s[1..], t)
  }

  /** `Contains` holds exactly when `t` occurs somewhere in `s`. */
  lemma {:induction false} ContainsIffOccurs(s: string, t: string)
    ensures Contains(s, t) <==> exists k :: OccursAt(s, t, k)
  {
    if |t| <= |s| && s[..|t|] != t {
      ContainsIffOccurs(s[1..], t);
      if Contains(s[1..], t) {
        var k :| OccursAt(s[1..], t, k);
        assert OccursAt(s, t, k + 1);
      }
      if exists k :: OccursAt(s, t, k) {
        var k :| OccursAt(s, t, k);
        assert k != 0;
        assert OccursAt(s[1..], t, k - 1);
      }
    } else if |t| <= |s| {
      assert OccursAt(s, t, 0);
    }
  }

  /** `field.str.contains(term, case=False, na=False)`. */
  predicate FieldMatches(field: Option<string>, term: string) {
    field.Some? && Contains(Lower(field.value), Lower(term))
  }

  function SearchMask(filterType: string, term: string): Record -> bool {
    (r: Record) => if filterType == ProductName then FieldMatches(r.product, term)
         else FieldMatches(r.address, term)
  }

  /** The rows whose product or address (by `filterType`) contains `term`; any other filter type keeps all rows. */
  function FilterDataframe(rows: seq<Record>, filterType: string, term: string): (r: seq<Record>)
    ensures |r| <= |rows| && forall i :: 0 <= i < |r| ==> r[i] in rows
    ensures filterType != ProductName && filterType != AddressOrZip ==> r == rows
    ensures filterType == ProductName ==>
      forall i :: 0 <= i < |r| ==> r[i] in rows && FieldMatches(r[i].product, term)
    ensures filterType == ProductName ==>
      forall i :: 0 <= i < |rows| && FieldMatches(rows[i].product, term) ==> rows[i] in r
    ensures filterType == AddressOrZip ==>
      forall i :: 0 <= i < |r| ==> r[i] in rows && FieldMatches(r[i].address, term)
    ensures filterType == AddressOrZip ==>
      forall i :: 0 <= i < |rows| && FieldMatches(rows[i].address, term) ==> rows[i] in r
  {
    if filterType == ProductName || filterType == AddressOrZip then Select(rows, SearchMask(filterType, term))
    else rows
  }

  /** The search keeps rows in their original order, at the positions the mask picks. */
  lemma FilterDataframeOrder(rows: seq<Record>, filterType: string, term: string)
    requires filterType == ProductName || filterType == AddressOrZip
    ensures Embeds(KeptPositions(rows, SearchMask(filterType, term)), FilterDataframe(rows, filterType, term), rows)
  {
    SelectIsOrderedSubsequence(rows, SearchMask(filterType, term));
  }

  /** An empty search term keeps exactly the rows whose searched field is present. */
  lemma EmptyTermKeepsPresent(field: Option<string>)
    ensures FieldMatches(field, "") <==> field.Some?
  {
    if field.Some? {
      assert Lower(field.value)[..0] == Lower("");
    }
  }

  /** The search ignores case: lower-casing the term changes nothing. */
  lemma {:induction false} TermCaseIgnored(field: Option<string>, term: string)
    ensures FieldMatches(field, term) <==> FieldMatches(field, Lower(term))
  {
    assert Lower(Lower(term)) == Lower(term);
  }

  /** The same for an upper-case letter in the searched field. */
  lemma FieldCaseIgnored(s: string, i: nat, term: string)
    requires i < |s|
    ensures FieldMatches(Some(s), term) <==> FieldMatches(Some(s[i := LowerChar(s[i])]), term)
  {
    assert Lower(s) == Lower(s[i := LowerChar(s[i])]);
  }

  /** Upper-casing one character of the searched field changes nothing. */
  lemma FieldUpperCaseIgnored(s: string, i: nat, term: string)
    requires i < |s|
    ensures FieldMatches(Some(s), term) <==> FieldMatches(Some(s[i := UpperChar(s[i])]), term)
  {
    assert Lower(s) == Lower(s[i := UpperChar(s[i])]);
  }

  /** Upper-casing one character of the search term changes nothing. */
  lemma TermUpperCaseIgnored(field: Option<string>, t: string, i: nat)
    requires i < |t|
    ensures FieldMatches(field, t) <==> FieldMatches(field, t[i := UpperChar(t[i])])
  {
    assert Lower(t) == Lower(t[i := UpperChar(t[i])]);
  }

  /** "Address or ZIP" looks at the address text only, never at the derived `Zip` column. */
  lemma AddressSearchIgnoresZip(r: Record, z: Option<string>, term: string)
    ensures SearchMask(AddressOrZip, term)(r) == SearchMask(AddressOrZip, term)(r.(zip := z))
  {
  }

  /** "Product Name" with term "usb" finds "USB-C Charging Cable". */
  lemma ProductSearchExample()
    ensures FieldMatches(Some("USB-C Charging Cable"), "usb")
  {
    assert Lower("USB-C Charging Cable")[..3] == "usb";
  }
}
