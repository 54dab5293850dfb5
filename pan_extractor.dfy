/**
 * The PAN-card field extractor `extract_pan_details` of app1.py (lines
 * 89-118): the PAN number from one token, a one-word name after the token
 * that holds the number, and the first `dd/dd/dddd` of the raw text.
 */
module PanExtractor {
  import opened Wrappers
  import opened PyText

  // ===========================================================================
  // PAN number (app1.py:94-100)
  // ===========================================================================

  /** Five upper-case letters, four digits, one upper-case letter. */
  predicate IsPanNumber(s: string)
  {
    && |s| == 10
    && (forall k :: 0 <= k < 5 ==> IsUpperChar(s[k]))
    && (forall k :: 5 <= k < 9 ==> IsDigitChar(s[k]))
    && IsUpperChar(s[9])
  }

  /** `re.match(r'^[A-Z]{5}[0-9]{4}[A-Z]$', s)`; `$` also matches just before a final newline. */
  predicate MatchesPanPattern(s: string)
  {
    IsPanNumber(s) || (|s| == 11 && s[10] == '\n' && IsPanNumber(s[..10]))
  }

  /** `word.upper().strip()` */
  function PanCandidate(w: string): string { Strip(Upper(w)) }

  /** The loop body for one token: the number it yields, or `None` to go on. */
  function PanAt(w: string): Option<string>
  {
    if MatchesPanPattern(PanCandidate(w)) then Some(PanCandidate(w)) else None
  }

  /** The PAN number found, `None` where the source keeps "Not Found". */
  function PanNumber(words: seq<string>): Option<string>
    decreases |words|
  {
    if words == [] then None
    else if PanAt(words[0]).Some? then PanAt(words[0])
    else PanNumber(words[1..])
  }

  /** The first token whose upper-cased, stripped form matches the pattern decides the number. */
  lemma {:induction false} PanNumberIsFirstMatch(words: seq<string>)
    ensures PanNumber(words) == None <==> forall k :: 0 <= k < |words| ==> PanAt(words[k]) == None
    ensures PanNumber(words).Some? ==>
      exists k :: 0 <= k < |words| && PanAt(words[k]) == PanNumber(words)
        && forall j :: 0 <= j < k ==> PanAt(words[j]) == None
    decreases |words|
  {
    if words == [] {
    } else if PanAt(words[0]).Some? {
      assert PanNumber(words) == PanAt(words[0]);
    } else {
      var rest := words[1..];
      assert PanNumber(words) == PanNumber(rest);
      PanNumberIsFirstMatch(rest);
      forall j | 1 <= j < |words| ensures words[j] == rest[j - 1] { }
      if PanNumber(rest).Some? {
        var k :| 0 <= k < |rest| && PanAt(rest[k]) == PanNumber(rest)
          && forall j :: 0 <= j < k ==> PanAt(rest[j]) == None;
        assert PanAt(words[k + 1]) == PanNumber(words);
        assert forall j :: 0 <= j < k + 1 ==> PanAt(words[j]) == None by {
          forall j | 0 <= j < k + 1 ensures PanAt(words[j]) == None {
            if j > 0 { assert words[j] == rest[j - 1]; }
          }
        }
      } else {
        assert forall k :: 0 <= k < |words| ==> PanAt(words[k]) == None by {
          forall k | 0 <= k < |words| ensures PanAt(words[k]) == None {
            if k > 0 { assert words[k] == rest[k - 1]; }
          }
        }
      }
    }
  }

  /**
   * A token's candidate never ends in whitespace, so a match is exactly
   * `AAAAA9999A`: the number found always has that form and length 10.
   */
  lemma PanAtFormat(w: string)
    ensures PanAt(w).Some? ==> IsPanNumber(PanAt(w).value)
  {
    StripEnds(Upper(w));
  }

  lemma PanNumberFormat(words: seq<string>)
    ensures PanNumber(words).Some? ==> IsPanNumber(PanNumber(words).value)
  {
    PanNumberIsFirstMatch(words);
    if PanNumber(words).Some? {
      var k :| 0 <= k < |words| && PanAt(words[k]) == PanNumber(words);
      PanAtFormat(words[k]);
    }
  }

  /** For a token of `split()`, the number is the token upper-cased. */
  lemma PanAtOfToken(w: string)
    requires NoSpace(w)
    ensures PanAt(w).Some? ==> PanAt(w).value == Upper(w)
  {
    assert NoSpace(Upper(w));
    StripNoSpace(Upper(w));
  }

  method FindPanNumber(words: seq<string>) returns (panNumber: string)
    ensures panNumber == PanNumber(words).GetOr("Not Found")
  {
    panNumber := "Not Found";
    for i := 0 to |words|
      invariant PanNumber(words[i..]) == PanNumber(words)
    {
      assert words[i..][1..] == words[i + 1..];
      var panCandidate := Strip(Upper(words[i]));
      if MatchesPanPattern(panCandidate) {
        panNumber := panCandidate;
        return;
      }
    }
  }

  // ===========================================================================
  // Name (app1.py:102-110)
  // ===========================================================================

  /** `w.isalpha() and w.isupper() and len(w) > 3` */
  predicate IsPanNameWord(w: string) { IsAlpha(w) && IsUpperStr(w) && |w| > 3 }

  /** The inner loop from index `j`: the first name word there is. */
  function NameWordAfter(words: seq<string>, j: nat): Option<string>
    decreases |words| - j
  {
    if j >= |words| then None
    else if IsPanNameWord(words[j]) then Some(words[j])
    else NameWordAfter(words, j + 1)
  }

  /** The outer loop from index `i`: the first token containing `pan` decides. */
  function PanNameFrom(words: seq<string>, pan: string, i: nat): Option<string>
    decreases |words| - i
  {
    if i >= |words| then None
    else if Contains(words[i], pan) then NameWordAfter(words, i + 1)
    else PanNameFrom(words, pan, i + 1)
  }

  /** The name found for the number `pan` (or the sentinel), `None` where the source keeps "Unknown". */
  function PanName(words: seq<string>, pan: string): Option<string> { PanNameFrom(words, pan, 0) }

  /** The inner loop takes the first upper-case alphabetic word of four or more letters. */
  lemma {:induction false} NameWordAfterIsFirst(words: seq<string>, j: nat)
    ensures NameWordAfter(words, j) == None <==> forall k :: j <= k < |words| ==> !IsPanNameWord(words[k])
    ensures NameWordAfter(words, j).Some? ==>
      exists k :: j <= k < |words| && IsPanNameWord(words[k]) && NameWordAfter(words, j).value == words[k]
        && forall l :: j <= l < k ==> !IsPanNameWord(words[l])
    decreases |words| - j
  {
    if j < |words| && !IsPanNameWord(words[j]) {
      NameWordAfterIsFirst(words, j + 1);
    }
  }

  lemma {:induction false} PanNameFromIsAfterFirstContaining(words: seq<string>, pan: string, i: nat)
    ensures (forall k :: i <= k < |words| ==> !Contains(words[k], pan)) ==> PanNameFrom(words, pan, i) == None
    ensures forall c ::
              i <= c < |words| && Contains(words[c], pan) && (forall k :: i <= k < c ==> !Contains(words[k], pan)) ==>
              PanNameFrom(words, pan, i) == NameWordAfter(words, c + 1)
    decreases |words| - i
  {
    if i < |words| && !Contains(words[i], pan) {
      PanNameFromIsAfterFirstContaining(words, pan, i + 1);
    }
  }

  /**
   * The name is "Unknown" unless some token contains the number; otherwise it
   * is the first name word after the first such token (and "Unknown" if there
   * is none).
   */
  lemma PanNameIsAfterFirstContaining(words: seq<string>, pan: string)
    ensures (forall k :: 0 <= k < |words| ==> !Contains(words[k], pan)) ==> PanName(words, pan) == None
    ensures forall c ::
              0 <= c < |words| && Contains(words[c], pan) && (forall k :: 0 <= k < c ==> !Contains(words[k], pan)) ==>
              PanName(words, pan) == NameWordAfter(words, c + 1)
  {
    PanNameFromIsAfterFirstContaining(words, pan, 0);
  }

  /**
   * With no number found the name stays "Unknown": the sentinel "Not Found"
   * holds a space, which no token of `split()` does.
   */
  lemma NotFoundHasNoName(words: seq<string>)
    requires forall k :: 0 <= k < |words| ==> NoSpace(words[k])
    ensures PanName(words, "Not Found") == None
  {
    assert "Not Found"[3] == ' ';
    forall k | 0 <= k < |words| ensures !Contains(words[k], "Not Found") {
      assert ' ' !in words[k];
      ContainsNeedsChar(words[k], "Not Found", ' ');
    }
    PanNameIsAfterFirstContaining(words, "Not Found");
  }

  lemma {:induction false} ContainsSameLength(s: string, sub: string)
    requires |s| == |sub|
    ensures Contains(s, sub) <==> s == sub
  {
    assert s[..|sub|] == s;
  }

  /**
   * A token with a lower-case letter that yields a number does not contain
   * that (upper-case) number, so it cannot be where the name search starts.
   */
  lemma LowerCaseSourceToken(w: string)
    requires NoSpace(w)
    requires PanAt(w).Some?
    requires exists k :: 0 <= k < |w| && IsLowerChar(w[k])
    ensures !Contains(w, PanAt(w).value)
  {
    PanAtOfToken(w);
    var k :| 0 <= k < |w| && IsLowerChar(w[k]);
    assert Upper(w)[k] != w[k];
    ContainsSameLength(w, Upper(w));
  }

  method FindPanName(words: seq<string>, panNumber: string) returns (name: string)
    ensures name == PanName(words, panNumber).GetOr("Unknown")
  {
    name := "Unknown";
    for i := 0 to |words|
      invariant name == "Unknown"
      invariant PanNameFrom(words, panNumber, i) == PanName(words, panNumber)
    {
      if Contains(words[i], panNumber) {
        for j := i + 1 to |words|
          invariant name == "Unknown"
          invariant NameWordAfter(words, j) == NameWordAfter(words, i + 1)
        {
          if IsAlpha(words[j]) && IsUpperStr(words[j]) && |words[j]| > 3 {
            name := words[j];
            break;
          }
        }
        break;
      }
    }
  }

  // ===========================================================================
  // Date of birth (app1.py:112-116)
  // ===========================================================================

  /** `\d{2}/\d{2}/\d{4}` matches at position `k` of `s`. */
  predicate DateAt(s: string, k: nat)
  {
    && k + 10 <= |s|
    && IsDigitChar(s[k]) && IsDigitChar(s[k + 1]) && s[k + 2] == '/'
    && IsDigitChar(s[k + 3]) && IsDigitChar(s[k + 4]) && s[k + 5] == '/'
    && IsDigitChar(s[k + 6]) && IsDigitChar(s[k + 7]) && IsDigitChar(s[k + 8]) && IsDigitChar(s[k + 9])
  }

  function SearchDateFrom(s: string, k: nat): Option<string>
    decreases |s| - k
  {
    if k + 10 > |s| then None
    else if DateAt(s, k) then Some(s[k..k + 10])
    else SearchDateFrom(s, k + 1)
  }

  /** `re.search(r'\d{2}/\d{2}/\d{4}', s)`, its matched text or `None`. */
  function SearchDate(s: string): Option<string> { SearchDateFrom(s, 0) }

  lemma {:induction false} SearchDateFromLeftmost(s: string, k: nat)
    ensures SearchDateFrom(s, k) == None <==> forall p: nat :: k <= p ==> !DateAt(s, p)
    ensures SearchDateFrom(s, k).Some? ==>
      exists p: nat :: k <= p && DateAt(s, p) && SearchDateFrom(s, k).value == s[p..p + 10]
        && forall q: nat :: k <= q < p ==> !DateAt(s, q)
    decreases |s| - k
  {
    if k + 10 > |s| {
      assert forall p: nat :: k <= p ==> !DateAt(s, p);
    } else if DateAt(s, k) {
      assert SearchDateFrom(s, k) == Some(s[k..k + 10]);
      assert forall q: nat :: k <= q < k ==> !DateAt(s, q);
    } else {
      assert SearchDateFrom(s, k) == SearchDateFrom(s, k + 1);
      SearchDateFromLeftmost(s, k + 1);
      if SearchDateFrom(s, k).Some? {
        var p: nat :| k + 1 <= p && DateAt(s, p) && SearchDateFrom(s, k + 1).value == s[p..p + 10]
          && forall q: nat :: k + 1 <= q < p ==> !DateAt(s, q);
        assert forall q: nat :: k <= q < p ==> !DateAt(s, q);
      }
    }
  }

  /**
   * The date is the leftmost `dd/dd/dddd` of the text, with no range check on
   * its numbers, or "Not Found".
   */
  lemma SearchDateIsLeftmost(s: string)
    ensures SearchDate(s) == None <==> forall p: nat :: !DateAt(s, p)
    ensures SearchDate(s).Some? ==>
      exists p: nat :: DateAt(s, p) && SearchDate(s).value == s[p..p + 10] && forall q: nat :: q < p ==> !DateAt(s, q)
  {
    SearchDateFromLeftmost(s, 0);
  }

  /** Replacing newlines by spaces (app1.py:92) never changes what the search finds. */
  lemma {:induction false} NewlinesDoNotMatter(t: string, k: nat)
    ensures SearchDateFrom(ReplaceChar(t, '\n', ' '), k) == SearchDateFrom(t, k)
    decreases |t| - k
  {
    var r := ReplaceChar(t, '\n', ' ');
    ReplaceCharPerChar(t, '\n', ' ');
    if k + 10 <= |t| {
      assert DateAt(r, k) <==> DateAt(t, k);
      if DateAt(t, k) {
        assert r[k..k + 10] == t[k..k + 10];
      } else {
        NewlinesDoNotMatter(t, k + 1);
      }
    }
  }

  /** The raw `dd/dd/dddd` is taken as it stands: "99/99/0000" is a date here. */
  lemma NoRangeCheck()
    ensures SearchDate("DOB 99/99/0000") == Some("99/99/0000")
  {
    var s := "DOB 99/99/0000";
    assert !DateAt(s, 0) && !DateAt(s, 1) && !DateAt(s, 2) && !DateAt(s, 3);
    assert DateAt(s, 4);
    assert SearchDate(s) == SearchDateFrom(s, 4);
    assert s[4..14] == "99/99/0000";
  }

  // ===========================================================================
  // The whole extractor (app1.py:89-118)
  // ===========================================================================

  datatype PanDetails = PanDetails(pan: string, name: string, dob: string)

  /** The tuple `extract_pan_details` returns for the OCR text `text`. */
  function PanFields(text: string): PanDetails
  {
    var words := SplitWords(text);
    var pan := PanNumber(words).GetOr("Not Found");
    PanDetails(pan, PanName(words, pan).GetOr("Unknown"),
               SearchDate(ReplaceChar(text, '\n', ' ')).GetOr("Not Found"))
  }

  /** `text` is the OCR output of the image. */
  method ExtractPanDetails(text: string) returns (panNumber: string, name: string, dob: string)
    ensures PanDetails(panNumber, name, dob) == PanFields(text)
    ensures panNumber == "Not Found" || IsPanNumber(panNumber)
    ensures panNumber == "Not Found" ==> name == "Unknown"
  {
    var words := SplitWords(text);
    var textClean := ReplaceChar(text, '\n', ' ');
    panNumber := FindPanNumber(words);
    name := FindPanName(words, panNumber);
    dob := "Not Found";
    var found := SearchDate(textClean);
    if found.Some? {
      dob := found.value;
    }
    PanNumberFormat(words);
    SplitWordsTokens(text);
    NotFoundHasNoName(words);
  }
}
