/** The element ids of the rendered list: an item's `<li>` gets the id
    `item-${id}`, and a click on its edit icon recovers the number with
    `parseInt(elemId.match(/\d+/))`. */
module DomIds {
  import opened Items
  import opened Decimal

  /** `item-${id}`: the prefix `item-`, then the id's decimal text, with a
      minus sign first when the id is negative. */
  function ElemId(id: int): (e: string)
    ensures |e| > 5 && e[..5] == "item-"
    ensures id >= 0 ==> IsDigits(e[5..])
    ensures id < 0 ==> e[5] == '-' && IsDigits(e[6..])
  {
    "item-" + IntString(id)
  }

  /** The longest prefix of s made of digits. */
  function LeadingDigits(s: string): (d: string)
    ensures |d| <= |s| && d == s[..|d|] && AllDigits(d)
    ensures |d| < |s| ==> !IsDigit(s[|d|])
  {
    if s == [] || !IsDigit(s[0]) then [] else [s[0]] + LeadingDigits(s[1..])
  }

  /** The position of the leftmost digit of s, or -1 when s has none. */
  function FirstDigitIndex(s: string): (k: int)
    ensures -1 <= k < |s|
    ensures k == -1 <==> AllNonDigits(s)
    ensures 0 <= k ==> IsDigit(s[k]) && AllNonDigits(s[..k])
  {
    if s == [] then -1
    else if IsDigit(s[0]) then 0
    else
      var j := FirstDigitIndex(s[1..]);
      assert 0 <= j ==> s[..j + 1] == [s[0]] + s[1..][..j];
      if j < 0 then -1 else j + 1
  }

  /** `s.match(/\d+/)`: None (null) when s has no digit, and otherwise the
      maximal run of digits that starts at the leftmost digit. */
  function FirstDigitRun(s: string): (r: Option<string>)
    ensures r.None? <==> AllNonDigits(s)
    ensures r.Some? ==> IsDigits(r.value)
    ensures r.Some? ==> var k := FirstDigitIndex(s); 0 <= k && r.value == LeadingDigits(s[k..])
  {
    if s == [] then None
    else if IsDigit(s[0]) then Some(LeadingDigits(s))
    else
      var r := FirstDigitRun(s[1..]);
      assert r.Some? ==> s[1..][FirstDigitIndex(s[1..])..] == s[FirstDigitIndex(s)..];
      r
  }

  predicate AllNonDigits(s: string) {
    forall i :: 0 <= i < |s| ==> !IsDigit(s[i])
  }

  /** `parseInt(elemId.match(/\d+/))`: the number the first digit run spells,
      never negative, or None for NaN when there is no digit (a null match
      becomes the text "null"). */
  function ParseElemId(elemId: string): (r: Option<int>)
    ensures r.None? <==> AllNonDigits(elemId)
    ensures r.Some? ==> r.value >= 0
  {
    match FirstDigitRun(elemId)
    case None => None
    case Some(d) => Some(DigitsValue(d))
  }

  /** A prefix without digits is skipped by the search for the first digit run. */
  lemma {:induction false} SkipNonDigits(p: string, t: string)
    requires AllNonDigits(p)
    ensures FirstDigitRun(p + t) == FirstDigitRun(t)
  {
    if p != [] {
      assert (p + t)[0] == p[0] && !IsDigit(p[0]);
      assert (p + t)[1..] == p[1..] + t;
      SkipNonDigits(p[1..], t);
    } else {
      assert p + t == t;
    }
  }

  /** The leading digits of a string made only of digits are the whole string. */
  lemma {:induction false} LeadingDigitsAll(s: string)
    requires AllDigits(s)
    ensures LeadingDigits(s) == s
  {
    if s != [] {
      LeadingDigitsAll(s[1..]);
    }
  }

  /** A digit-free prefix followed by digits parses as the value of those digits. */
  lemma {:induction false} ParseAfterNonDigits(p: string, d: string)
    requires AllNonDigits(p) && IsDigits(d)
    ensures ParseElemId(p + d) == Some(DigitsValue(d))
  {
    SkipNonDigits(p, d);
    LeadingDigitsAll(d);
  }

  /** The id of an item with a non-negative id is read back from its element id. */
  lemma {:induction false} ElemIdRoundTrip(id: int)
    requires id >= 0
    ensures ParseElemId(ElemId(id)) == Some(id)
  {
    ParseAfterNonDigits("item-", NatString(id));
    NatStringRoundTrip(id);
  }

  /** For a negative id the minus sign is not part of the digit run, so the sign is lost. */
  lemma {:induction false} ElemIdDropsSign(id: int)
    requires id < 0
    ensures ParseElemId(ElemId(id)) == Some(-id)
  {
    var digits := NatString(-id);
    var p := "item--";
    assert AllNonDigits(p);
    assert ElemId(id) == p + digits;
    ParseAfterNonDigits(p, digits);
    NatStringRoundTrip(-id);
  }
}
