/** The text helpers of source_sites/uma_global.py: the trainer-id search
    in a profile link (`_first_id_from_href`, the pattern `(\d{6,})`) and
    the text-to-count rule of `grab_count` (the pattern `(\d+)`). */
module DigitRuns {
  import opened Text
  import opened Wrappers

  /** The end of the digit run that starts at `i`. */
  function RunEnd(s: string, i: nat): (j: nat)
    requires i <= |s|
    ensures i <= j <= |s|
    ensures forall k :: i <= k < j ==> IsDigit(s[k])
    ensures j == |s| || !IsDigit(s[j])
    decreases |s| - i
  {
    if i < |s| && IsDigit(s[i]) then RunEnd(s, i + 1) else i
  }

  /** At least `least` digits start at `k`. */
  predicate DigitsAt(s: string, k: int, least: nat) {
    0 <= k && k + least <= |s| && forall m :: k <= m < k + least ==> IsDigit(s[m])
  }

  /** The start of the first maximal digit run of length `least` or more,
      searching from `i`: how a left-most regex search for `\d{least,}`
      walks the text, run by run. */
  function ScanRun(s: string, i: nat, least: nat): (r: Option<nat>)
    requires i <= |s|
    ensures r.Some? ==> i <= r.value < |s|
    decreases |s| - i
  {
    if i == |s| then None
    else if !IsDigit(s[i]) then ScanRun(s, i + 1, least)
    else
      var j := RunEnd(s, i);
      if j - i >= least then Some(i)
      else ScanRun(s, j, least)
  }

  /** The scan finds the left-most place where `least` digits start, and
      nothing when there is none. */
  lemma {:induction false} ScanRunLeftmost(s: string, i: nat, least: nat)
    requires i <= |s| && least >= 1
    ensures ScanRun(s, i, least).Some? <==> exists k :: i <= k && DigitsAt(s, k, least)
    ensures ScanRun(s, i, least).Some? ==>
      var p := ScanRun(s, i, least).value;
      && i <= p && DigitsAt(s, p, least)
      && forall k :: i <= k < p ==> !DigitsAt(s, k, least)
    decreases |s| - i
  {
    if i == |s| {
      assert forall k :: i <= k ==> !DigitsAt(s, k, least);
    } else if !IsDigit(s[i]) {
      ScanRunLeftmost(s, i + 1, least);
      assert !DigitsAt(s, i, least);
      assert forall k :: i <= k ==> (DigitsAt(s, k, least) <==> i + 1 <= k && DigitsAt(s, k, least));
    } else {
      var j := RunEnd(s, i);
      if j - i >= least {
        assert DigitsAt(s, i, least);
      } else {
        assert j > i;
        forall k | i <= k < j
          ensures !DigitsAt(s, k, least)
        {
          assert j < k + least;
          if j < |s| {
            assert !IsDigit(s[j]);
          }
        }
        ScanRunLeftmost(s, j, least);
        assert forall k :: i <= k ==> (DigitsAt(s, k, least) <==> j <= k && DigitsAt(s, k, least));
      }
    }
  }

  /** The first maximal digit run of length `least` or more. */
  function FirstRun(s: string, least: nat): Option<string>
    requires least >= 1
  {
    match ScanRun(s, 0, least)
    case None => None
    case Some(p) => Some(s[p..RunEnd(s, p)])
  }

  /** The match is a whole run: all digits, at least `least` of them, not
      preceded or followed by a digit, and it starts at the left-most
      place where `least` digits start. */
  lemma FirstRunShape(s: string, least: nat)
    requires least >= 1
    ensures FirstRun(s, least).None? <==> forall k :: !DigitsAt(s, k, least)
    ensures FirstRun(s, least).Some? ==>
      var t := FirstRun(s, least).value;
      exists p :: 0 <= p && p + |t| <= |s| && t == s[p..p + |t|]
        && DigitsAt(s, p, least) && (forall k :: 0 <= k < p ==> !DigitsAt(s, k, least))
        && (p == 0 || !IsDigit(s[p - 1]))
        && (p + |t| == |s| || !IsDigit(s[p + |t|]))
    ensures FirstRun(s, least).Some? ==>
      AllDigits(FirstRun(s, least).value) && |FirstRun(s, least).value| >= least
  {
    ScanRunLeftmost(s, 0, least);
    if FirstRun(s, least).Some? {
      var p := ScanRun(s, 0, least).value;
      var t := FirstRun(s, least).value;
      assert t == s[p..p + |t|];
      if p > 0 {
        NotAfterDigit(s, p, least);
      }
    }
  }

  lemma NotAfterDigit(s: string, p: nat, least: nat)
    requires 0 < p && DigitsAt(s, p, least) && !DigitsAt(s, p - 1, least)
    ensures !IsDigit(s[p - 1])
  {
    assert IsDigit(s[p - 1]) ==> DigitsAt(s, p - 1, least);
  }

  /** `_first_id_from_href(href)`: `None` for a missing or empty link,
      otherwise the first run of six or more digits, if any. */
  function FirstIdFromHref(href: Option<string>): Option<string> {
    if href.None? || href.value == "" then None
    else FirstRun(href.value, 6)
  }

  /** An id, when there is one, is all digits and at least six long, and
      there is none for a missing or empty link. */
  lemma FirstIdShape(href: Option<string>)
    ensures href.None? || href == Some("") ==> FirstIdFromHref(href).None?
    ensures FirstIdFromHref(href).Some? ==> AllDigits(FirstIdFromHref(href).value) && |FirstIdFromHref(href).value| >= 6
    ensures href.Some? && href.value != "" ==>
      (FirstIdFromHref(href).None? <==> forall k :: !DigitsAt(href.value, k, 6))
  {
    if href.Some? && href.value != "" {
      FirstRunShape(href.value, 6);
    }
  }

  /** `grab_count`'s rule on the text of a counter: strip, drop the
      thousands commas, read the first digit run, 0 if there is none. */
  function CountFromText(txt: string): nat {
    match FirstRun(RemoveChar(Strip(txt), ','), 1)
    case None => 0
    case Some(run) =>
      FirstRunShape(RemoveChar(Strip(txt), ','), 1);
      DigitsValue(run)
  }

  /** Text without digits counts 0; text with digits counts the value of
      the first digit run once the commas are gone. */
  lemma CountFromTextShape(txt: string)
    ensures (forall k :: !DigitsAt(RemoveChar(Strip(txt), ','), k, 1)) ==> CountFromText(txt) == 0
    ensures FirstRun(RemoveChar(Strip(txt), ','), 1).Some? ==>
      var run := FirstRun(RemoveChar(Strip(txt), ','), 1).value;
      AllDigits(run) && run != [] && CountFromText(txt) == DigitsValue(run)
  {
    FirstRunShape(RemoveChar(Strip(txt), ','), 1);
  }
}
