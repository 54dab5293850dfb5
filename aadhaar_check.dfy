/**
 * The stand-alone Aadhaar checker Adhaar/check.py: `is_valid_aadhar_combo`
 * (lines 35-37) and the script's scan of the OCR word list (lines 64-91),
 * which strips each word, takes the leftmost valid 4-4-4 triple and guesses
 * the name as the nearest earlier word that is not a number.
 */
module AadhaarCheck {
  import opened Wrappers
  import opened PyText
  import AadhaarExtractor

  /** `is_valid_aadhar_combo(parts)`: `re.match(r'^[2-9]{1}[0-9]{11}$', ''.join(parts))` */
  predicate IsValidAadharCombo(parts: seq<string>)
  {
    AadhaarExtractor.MatchesNumberPattern(Concat(parts))
  }

  /**
   * For parts without a newline the combo test is exactly "twelve digits,
   * the first from 2 to 9".
   */
  lemma ComboIsTwelveDigits(parts: seq<string>)
    requires forall k :: 0 <= k < |parts| ==> '\n' !in parts[k]
    ensures IsValidAadharCombo(parts) <==> AadhaarExtractor.IsAadhaarNumber(Concat(parts))
  {
    var s := Concat(parts);
    ConcatLacks(parts, '\n');
    if |s| == 13 {
      assert s[12] in s;
    }
  }

  /** The stripped words of the triple at `i` (lines 69-71). */
  function Parts(tl: seq<string>, i: nat): seq<string>
    requires i + 2 < |tl|
  {
    [Strip(tl[i]), Strip(tl[i + 1]), Strip(tl[i + 2])]
  }

  /** Lines 73 and 76: three stripped 4-digit words that pass the combo test. */
  predicate ComboAt(tl: seq<string>, i: nat)
  {
    && i + 2 < |tl|
    && AadhaarExtractor.IsDigitGroup(Strip(tl[i]))
    && AadhaarExtractor.IsDigitGroup(Strip(tl[i + 1]))
    && AadhaarExtractor.IsDigitGroup(Strip(tl[i + 2]))
    && IsValidAadharCombo(Parts(tl, i))
  }

  /** The index of the triple at or after `i` where the scan stops, if any. */
  function ComboFrom(tl: seq<string>, i: nat): (r: Option<nat>)
    ensures r.Some? ==> i <= r.value && r.value + 2 < |tl|
    decreases |tl| - i
  {
    if i + 2 >= |tl| then None
    else if ComboAt(tl, i) then Some(i)
    else ComboFrom(tl, i + 1)
  }

  /**
   * The scan stops at the leftmost qualifying triple: none is found exactly
   * when no index qualifies, and every index passed over fails.
   */
  lemma {:induction false} ComboFromIsLeftmost(tl: seq<string>, i: nat)
    ensures ComboFrom(tl, i).None? <==> forall j: nat :: i <= j ==> !ComboAt(tl, j)
    ensures ComboFrom(tl, i).Some? ==> i <= ComboFrom(tl, i).value && ComboAt(tl, ComboFrom(tl, i).value)
    ensures ComboFrom(tl, i).Some? ==> forall j: nat :: i <= j < ComboFrom(tl, i).value ==> !ComboAt(tl, j)
    decreases |tl| - i
  {
    if i + 2 < |tl| && !ComboAt(tl, i) {
      ComboFromIsLeftmost(tl, i + 1);
    }
  }

  /** Line 80: a stripped word that is not empty and is not all digits once its spaces are removed. */
  predicate IsNameText(t: string)
  {
    t != [] && !IsDigits(RemoveChar(t, ' '))
  }

  /** Lines 78-82: the backward search from index `i - 1` down to 0. */
  function NameBefore(tl: seq<string>, i: nat): Option<string>
    requires i <= |tl|
    decreases i
  {
    if i == 0 then None
    else if IsNameText(Strip(tl[i - 1])) then Some(Strip(tl[i - 1]))
    else NameBefore(tl, i - 1)
  }

  /**
   * The name guess is the stripped word at the greatest index below `i` that
   * qualifies, or `None` when there is none.
   */
  lemma {:induction false} NameBeforeIsNearest(tl: seq<string>, i: nat)
    requires i <= |tl|
    ensures NameBefore(tl, i) == None <==> forall j :: 0 <= j < i ==> !IsNameText(Strip(tl[j]))
    ensures NameBefore(tl, i).Some? ==>
      exists j :: 0 <= j < i && IsNameText(Strip(tl[j])) && NameBefore(tl, i).value == Strip(tl[j])
        && forall l :: j < l < i ==> !IsNameText(Strip(tl[l]))
    decreases i
  {
    if i > 0 && !IsNameText(Strip(tl[i - 1])) {
      NameBeforeIsNearest(tl, i - 1);
    }
  }

  datatype CheckResult = CheckResult(aadharNumber: Option<string>, nameCandidate: Option<string>, confirmed: bool)

  /** What the script has found when it reaches its output step (line 85). */
  function CheckScan(tl: seq<string>): CheckResult
  {
    match ComboFrom(tl, 0)
    case None => CheckResult(None, None, false)
    case Some(k) => CheckResult(Some(Concat(Parts(tl, k))), NameBefore(tl, k), true)
  }

  /**
   * The number found is twelve digits with a leading digit from 2 to 9, and
   * the card is confirmed exactly when a number was found.
   */
  lemma CheckScanFormat(tl: seq<string>)
    ensures CheckScan(tl).confirmed <==> CheckScan(tl).aadharNumber.Some?
    ensures CheckScan(tl).aadharNumber.None? ==> CheckScan(tl).nameCandidate.None?
    ensures CheckScan(tl).aadharNumber.Some? ==> AadhaarExtractor.IsAadhaarNumber(CheckScan(tl).aadharNumber.value)
  {
    ComboFromIsLeftmost(tl, 0);
    if ComboFrom(tl, 0).Some? {
      var k := ComboFrom(tl, 0).value;
      Concat3(Strip(tl[k]), Strip(tl[k + 1]), Strip(tl[k + 2]));
      assert |Concat(Parts(tl, k))| == 12;
    }
  }

  /**
   * On words without whitespace (the tokens of `split()`) the script finds
   * the same number as app1.py's extractor: stripping changes nothing and the
   * two tests are the same.
   */
  lemma {:induction false} ComboFromAgrees(tl: seq<string>, i: nat)
    requires forall k :: 0 <= k < |tl| ==> NoSpace(tl[k])
    ensures AadhaarExtractor.NumberFrom(tl, i) ==
      match ComboFrom(tl, i)
      case None => None
      case Some(k) => Some(Concat(Parts(tl, k)))
    decreases |tl| - i
  {
    if i + 2 < |tl| {
      StripNoSpace(tl[i]);
      StripNoSpace(tl[i + 1]);
      StripNoSpace(tl[i + 2]);
      Concat3(tl[i], tl[i + 1], tl[i + 2]);
      assert Concat(Parts(tl, i)) == AadhaarExtractor.Triple(tl, i);
      assert ComboAt(tl, i) <==> AadhaarExtractor.TripleAccepted(tl, i);
      if !ComboAt(tl, i) {
        ComboFromAgrees(tl, i + 1);
      }
    }
  }

  lemma CheckAgreesWithApp(tl: seq<string>)
    requires forall k :: 0 <= k < |tl| ==> NoSpace(tl[k])
    ensures CheckScan(tl).aadharNumber == AadhaarExtractor.AadhaarNumber(tl)
  {
    ComboFromAgrees(tl, 0);
  }

  /** Lines 64-91, over the word list `text_data['text']` of the OCR call. */
  method ScanTextList(textList: seq<string>)
    returns (aadharNumber: Option<string>, nameCandidate: Option<string>, confirmed: bool)
    ensures CheckResult(aadharNumber, nameCandidate, confirmed) == CheckScan(textList)
  {
    aadharNumber := None;
    nameCandidate := None;
    var i := 0;
    while i + 2 < |textList|
      invariant aadharNumber == None && nameCandidate == None
      invariant ComboFrom(textList, i) == ComboFrom(textList, 0)
      decreases |textList| - i
    {
      var p1, p2, p3 := Strip(textList[i]), Strip(textList[i + 1]), Strip(textList[i + 2]);
      assert Parts(textList, i) == [p1, p2, p3];
      if IsDigits(p1) && IsDigits(p2) && IsDigits(p3) && |p1| == 4 && |p2| == 4 && |p3| == 4 {
        var combined := p1 + p2 + p3;
        if IsValidAadharCombo([p1, p2, p3]) {
          Concat3(p1, p2, p3);
          assert ComboAt(textList, i);
          aadharNumber := Some(combined);
          for j := i downto 0
            invariant nameCandidate == None
            invariant NameBefore(textList, j) == NameBefore(textList, i)
          {
            var nameText := Strip(textList[j]);
            if nameText != [] && !IsDigits(RemoveChar(nameText, ' ')) {
              nameCandidate := Some(nameText);
              break;
            }
          }
          break;
        }
      }
      assert !ComboAt(textList, i);
      i := i + 1;
    }
    confirmed := aadharNumber.Some?;
  }
}
