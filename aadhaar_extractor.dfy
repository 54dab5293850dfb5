/**
 * The Aadhaar-card field extractor `extract_aadhaar_details` of app1.py
 * (lines 18-67): four independent first-match scans over the OCR word list
 * `text.split()`, each with its own sentinel when nothing matches.
 */
module AadhaarExtractor {
  import opened Wrappers
  import opened PyText

  // ===========================================================================
  // Aadhaar number (app1.py:24-32)
  // ===========================================================================

  /** A token accepted by `w.isdigit() and len(w) == 4`. */
  predicate IsDigitGroup(w: string) { IsDigits(w) && |w| == 4 }

  /** Twelve ASCII digits, the first of them from 2 to 9. */
  predicate IsAadhaarNumber(s: string) { |s| == 12 && IsDigits(s) && '2' <= s[0] <= '9' }

  /** `re.match(r'^[2-9][0-9]{11}$', s)`; Python's `$` also matches just before a final newline. */
  predicate MatchesNumberPattern(s: string)
  {
    IsAadhaarNumber(s) || (|s| == 13 && s[12] == '\n' && IsAadhaarNumber(s[..12]))
  }

  function Triple(words: seq<string>, i: nat): string
    requires i + 2 < |words|
  {
    words[i] + words[i + 1] + words[i + 2]
  }

  /** The triple starting at `i` passes both tests of the loop body. */
  predicate TripleAccepted(words: seq<string>, i: nat)
  {
    && i + 2 < |words|
    && IsDigitGroup(words[i]) && IsDigitGroup(words[i + 1]) && IsDigitGroup(words[i + 2])
    && MatchesNumberPattern(Triple(words, i))
  }

  ghost predicate LeftmostTriple(words: seq<string>, i: nat)
  {
    TripleAccepted(words, i) && forall j: nat :: j < i ==> !TripleAccepted(words, j)
  }

  /** The scan of `range(len(words) - 2)` started at index `i`. */
  function NumberFrom(words: seq<string>, i: nat): Option<string>
    decreases |words| - i
  {
    if i + 2 >= |words| then None
    else if TripleAccepted(words, i) then Some(Triple(words, i))
    else NumberFrom(words, i + 1)
  }

  /** The value of `aadhar` after the loop: `None` or the first accepted triple. */
  function AadhaarNumber(words: seq<string>): Option<string> { NumberFrom(words, 0) }

  lemma {:induction false} NumberFromFirst(words: seq<string>, i: nat)
    ensures NumberFrom(words, i) == None <==> forall j: nat :: i <= j ==> !TripleAccepted(words, j)
    ensures NumberFrom(words, i).Some? ==>
      exists k: nat :: i <= k && TripleAccepted(words, k) && NumberFrom(words, i).value == Triple(words, k)
        && forall j: nat :: i <= j < k ==> !TripleAccepted(words, j)
    decreases |words| - i
  {
    if i + 2 < |words| && !TripleAccepted(words, i) {
      NumberFromFirst(words, i + 1);
    }
  }

  /**
   * The number is found exactly when some triple is accepted, and then it is
   * the concatenation of the leftmost accepted triple; a triple of digit
   * groups that fails the pattern does not stop the scan.
   */
  lemma AadhaarNumberIsLeftmostTriple(words: seq<string>)
    ensures AadhaarNumber(words) == None <==> forall i: nat :: !TripleAccepted(words, i)
    ensures AadhaarNumber(words).Some? ==>
      exists i: nat :: LeftmostTriple(words, i) && AadhaarNumber(words).value == Triple(words, i)
    ensures forall i: nat :: LeftmostTriple(words, i) ==> AadhaarNumber(words) == Some(Triple(words, i))
  {
    NumberFromFirst(words, 0);
    forall i: nat | LeftmostTriple(words, i)
      ensures AadhaarNumber(words) == Some(Triple(words, i))
    {
      var k: nat :| TripleAccepted(words, k) && AadhaarNumber(words).value == Triple(words, k)
        && forall j: nat :: j < k ==> !TripleAccepted(words, j);
      assert k == i;
    }
  }

  /** What is found is always twelve digits with a leading digit from 2 to 9. */
  lemma AadhaarNumberFormat(words: seq<string>)
    ensures AadhaarNumber(words).Some? ==> IsAadhaarNumber(AadhaarNumber(words).value)
  {
    NumberFromFirst(words, 0);
  }

  /** For three digit groups the pattern test is only the leading-digit test. */
  lemma DigitGroupsAccepted(words: seq<string>, i: nat)
    requires i + 2 < |words|
    requires IsDigitGroup(words[i]) && IsDigitGroup(words[i + 1]) && IsDigitGroup(words[i + 2])
    ensures TripleAccepted(words, i) <==> '2' <= words[i][0] <= '9'
  {
    var t := Triple(words, i);
    assert forall k :: 0 <= k < 12 ==> IsDigitChar(t[k]) by {
      forall k | 0 <= k < 12 ensures IsDigitChar(t[k]) {
        if k < 4 { assert t[k] == words[i][k]; }
        else if k < 8 { assert t[k] == words[i + 1][k - 4]; }
        else { assert t[k] == words[i + 2][k - 8]; }
      }
    }
    assert t[0] == words[i][0];
  }

  method FindAadhaarNumber(words: seq<string>) returns (aadhar: Option<string>)
    ensures aadhar == AadhaarNumber(words)
  {
    aadhar := None;
    var i := 0;
    while i + 2 < |words|
      invariant aadhar == None
      invariant NumberFrom(words, i) == AadhaarNumber(words)
      decreases |words| - i
    {
      var w1, w2, w3 := words[i], words[i + 1], words[i + 2];
      if IsDigitGroup(w1) && IsDigitGroup(w2) && IsDigitGroup(w3) {
        var candidate := w1 + w2 + w3;
        if MatchesNumberPattern(candidate) {
          aadhar := Some(candidate);
          break;
        }
      }
      i := i + 1;
    }
  }

  // ===========================================================================
  // Name (app1.py:35-41)
  // ===========================================================================

  /** `[w for w in ws if w.isalpha()]` */
  function AlphaTokens(ws: seq<string>): seq<string>
    decreases |ws|
  {
    if ws == [] then [] else (if IsAlpha(ws[0]) then [ws[0]] else []) + AlphaTokens(ws[1..])
  }

  /** The filter keeps no more tokens than it is given, and all of them are alphabetic. */
  lemma {:induction false} AlphaTokensAlpha(ws: seq<string>)
    ensures |AlphaTokens(ws)| <= |ws|
    ensures forall k :: 0 <= k < |AlphaTokens(ws)| ==> IsAlpha(AlphaTokens(ws)[k])
    decreases |ws|
  {
    if ws != [] {
      AlphaTokensAlpha(ws[1..]);
      var head := if IsAlpha(ws[0]) then [ws[0]] else [];
      assert AlphaTokens(ws) == head + AlphaTokens(ws[1..]);
      forall k | 0 <= k < |AlphaTokens(ws)| ensures IsAlpha(AlphaTokens(ws)[k]) {
        if k >= |head| {
          assert AlphaTokens(ws)[k] == AlphaTokens(ws[1..])[k - |head|];
        }
      }
    }
  }

  /**
   * The filter keeps exactly the alphabetic tokens: a token that is not
   * alphabetic is skipped, not treated as the end of the name.
   */
  lemma {:induction false} AlphaTokensMembers(ws: seq<string>)
    ensures forall w :: w in AlphaTokens(ws) <==> w in ws && IsAlpha(w)
    decreases |ws|
  {
    if ws != [] {
      AlphaTokensMembers(ws[1..]);
      assert ws == [ws[0]] + ws[1..];
    }
  }

  /** `words[i + 2:i + 5]`, the slice clamped to the end of the list. */
  function Window(words: seq<string>, i: nat): seq<string>
    requires i + 2 < |words|
  {
    words[i + 2..Min(i + 5, |words|)]
  }

  /** `words[i].lower() == "name" and i + 2 < len(words) and words[i + 1] == ":"` */
  predicate IsNameLabel(words: seq<string>, i: nat)
  {
    i + 2 < |words| && Lower(words[i]) == "name" && words[i + 1] == ":"
  }

  /** The name the loop body at index `i` would take, or `None` if it goes on. */
  function NameAt(words: seq<string>, i: nat): Option<string>
  {
    if IsNameLabel(words, i) && AlphaTokens(Window(words, i)) != [] then
      Some(JoinSpace(AlphaTokens(Window(words, i))))
    else None
  }

  function NameFrom(words: seq<string>, i: nat): Option<string>
    decreases |words| - i
  {
    if i >= |words| then None
    else if NameAt(words, i).Some? then NameAt(words, i)
    else NameFrom(words, i + 1)
  }

  /** The name found, `None` where the source keeps "Unknown". */
  function NameField(words: seq<string>): Option<string> { NameFrom(words, 0) }

  lemma {:induction false} NameFromFirst(words: seq<string>, i: nat)
    ensures NameFrom(words, i) == None <==> forall j: nat :: i <= j ==> NameAt(words, j) == None
    ensures NameFrom(words, i).Some? ==>
      exists k: nat :: i <= k && NameAt(words, k) == NameFrom(words, i)
        && forall j: nat :: i <= j < k ==> NameAt(words, j) == None
    decreases |words| - i
  {
    if i >= |words| {
      forall j: nat | i <= j ensures NameAt(words, j) == None {
        assert !IsNameLabel(words, j);
      }
    } else if NameAt(words, i).Some? {
      assert NameFrom(words, i) == NameAt(words, i);
      assert forall j: nat :: i <= j < i ==> NameAt(words, j) == None;
    } else {
      assert NameFrom(words, i) == NameFrom(words, i + 1);
      NameFromFirst(words, i + 1);
      if NameFrom(words, i).Some? {
        var k: nat :| i + 1 <= k && NameAt(words, k) == NameFrom(words, i + 1)
          && forall j: nat :: i + 1 <= j < k ==> NameAt(words, j) == None;
        assert forall j: nat :: i <= j < k ==> NameAt(words, j) == None;
      }
    }
  }

  /**
   * The name comes from the first `name :` label followed by at least one
   * alphabetic token in the next three; a label with none does not stop the
   * search, and "Unknown" is kept only when no label qualifies.
   */
  lemma NameFieldIsFirstLabel(words: seq<string>)
    ensures NameField(words) == None <==> forall i: nat :: NameAt(words, i) == None
    ensures NameField(words).Some? ==>
      exists i: nat :: NameAt(words, i) == NameField(words) && forall j: nat :: j < i ==> NameAt(words, j) == None
  {
    NameFromFirst(words, 0);
  }

  /**
   * The name is one to three alphabetic tokens of the input, joined by single
   * spaces: splitting it again gives those tokens back.
   */
  lemma NameFieldWords(words: seq<string>)
    ensures NameField(words).Some? ==>
      var ps := SplitWords(NameField(words).value);
      && 1 <= |ps| <= 3
      && forall k :: 0 <= k < |ps| ==> IsAlpha(ps[k]) && ps[k] in words
  {
    NameFieldIsFirstLabel(words);
    if NameField(words).Some? {
      var i: nat :| NameAt(words, i) == NameField(words);
      var ps := AlphaTokens(Window(words, i));
      AlphaTokensAlpha(Window(words, i));
      forall k | 0 <= k < |ps| ensures ps[k] != [] && NoSpace(ps[k]) {
        assert IsAlpha(ps[k]);
      }
      SplitJoinRoundTrip(ps);
      AlphaTokensMembers(Window(words, i));
      forall k | 0 <= k < |ps| ensures ps[k] in words {
        assert ps[k] in Window(words, i);
      }
    }
  }

  method FindName(words: seq<string>) returns (name: string)
    ensures name == NameField(words).GetOr("Unknown")
  {
    name := "Unknown";
    for i := 0 to |words|
      invariant NameFrom(words, i) == NameField(words)
    {
      if Lower(words[i]) == "name" && i + 2 < |words| && words[i + 1] == ":" {
        var nameParts := AlphaTokens(words[i + 2..Min(i + 5, |words|)]);
        if nameParts != [] {
          name := JoinSpace(nameParts);
          return;
        }
      }
    }
  }

  // ===========================================================================
  // Date of birth (app1.py:43-56)
  // ===========================================================================

  /** `len(w) >= 8 and len(w) <= 12` */
  predicate IsDobCandidate(w: string) { 8 <= |w| <= 12 }

  /** `[w for w in words if len(w) >= 8 and len(w) <= 12]` */
  function DobCandidates(words: seq<string>): (r: seq<string>)
    ensures forall w :: w in r <==> w in words && IsDobCandidate(w)
    decreases |words|
  {
    if words == [] then []
    else (if IsDobCandidate(words[0]) then [words[0]] else []) + DobCandidates(words[1..])
  }

  /** The four `replace` calls followed by `re.sub(r'[^0-9]', '/', ...)`. */
  function CleanDob(raw: string): string
  {
    SubNonDigits(ReplaceChar(ReplaceChar(ReplaceChar(ReplaceChar(raw, 'O', '0'), 'o', '0'), 'I', '1'), 'l', '1'), '/')
  }

  /** What the cleaning does to one character. */
  function OcrFix(c: char): char
  {
    if c == 'O' || c == 'o' then '0'
    else if c == 'I' || c == 'l' then '1'
    else if IsDigitChar(c) then c
    else '/'
  }

  lemma CleanDobCons(raw: string)
    requires raw != []
    ensures CleanDob(raw) == [OcrFix(raw[0])] + CleanDob(raw[1..])
  {
    var r1 := ReplaceChar(raw, 'O', '0');
    var r2 := ReplaceChar(r1, 'o', '0');
    var r3 := ReplaceChar(r2, 'I', '1');
    var r4 := ReplaceChar(r3, 'l', '1');
    assert r1[1..] == ReplaceChar(raw[1..], 'O', '0');
    assert r2[1..] == ReplaceChar(ReplaceChar(raw[1..], 'O', '0'), 'o', '0');
    assert r3[1..] == ReplaceChar(ReplaceChar(ReplaceChar(raw[1..], 'O', '0'), 'o', '0'), 'I', '1');
    assert r4[1..] == ReplaceChar(ReplaceChar(ReplaceChar(ReplaceChar(raw[1..], 'O', '0'), 'o', '0'), 'I', '1'), 'l', '1');
  }

  /**
   * The cleaning maps characters one for one: 'O' and 'o' to '0', 'I' and 'l'
   * to '1', digits to themselves and everything else (lower-case 'i'
   * included) to '/'.
   */
  lemma {:induction false} CleanDobPerChar(raw: string)
    ensures |CleanDob(raw)| == |raw|
    ensures forall k :: 0 <= k < |raw| ==> CleanDob(raw)[k] == OcrFix(raw[k])
    decreases |raw|
  {
    if raw != [] {
      CleanDobCons(raw);
      CleanDobPerChar(raw[1..]);
    }
  }

  /** `re.match(r'\d{2}/\d{2}/\d{4}', c)`: a prefix test, anything may follow. */
  predicate DatePrefix(c: string)
  {
    && |c| >= 10
    && IsDigitChar(c[0]) && IsDigitChar(c[1]) && c[2] == '/'
    && IsDigitChar(c[3]) && IsDigitChar(c[4]) && c[5] == '/'
    && AllDigits(c[6..10])
  }

  /** `int(s)` on a piece of a cleaned token: it raises on the empty piece. */
  function ParseInt(s: string): Option<nat>
  {
    if IsDigits(s) then Some(ToInt(s)) else None
  }

  datatype Date = Date(day: nat, month: nat, year: nat)

  /** `d, m, y = map(int, c.split('/'))`, with `None` where Python raises. */
  function ParseDate(c: string): Option<Date>
  {
    var parts := SplitOn(c, '/');
    if |parts| != 3 then None
    else
      match (ParseInt(parts[0]), ParseInt(parts[1]), ParseInt(parts[2]))
      case (Some(d), Some(m), Some(y)) => Some(Date(d, m, y))
      case _ => None
  }

  predicate InRange(dt: Date)
  {
    1 <= dt.day <= 31 && 1 <= dt.month <= 12 && 1900 <= dt.year <= 2100
  }

  /** `f"{d:02d}/{m:02d}/{y}"` */
  function FormatDate(dt: Date): string
  {
    Pad2(dt.day) + "/" + Pad2(dt.month) + "/" + NatToString(dt.year)
  }

  /** The loop body for one candidate: the date it yields, or `None` to go on. */
  function DobOf(raw: string): Option<string>
  {
    var c := CleanDob(raw);
    if !DatePrefix(c) then None
    else
      match ParseDate(c)
      case None => None
      case Some(dt) => if InRange(dt) then Some(FormatDate(dt)) else None
  }

  /** The first candidate (in list order) that yields a date. */
  function FirstDob(cands: seq<string>): Option<string>
    decreases |cands|
  {
    if cands == [] then None
    else if DobOf(cands[0]).Some? then DobOf(cands[0])
    else FirstDob(cands[1..])
  }

  /** The date of birth found, `None` where the source keeps "Not Found". */
  function DobField(words: seq<string>): Option<string> { FirstDob(DobCandidates(words)) }

  /** `DD/MM/YYYY`, zero-padded, with every field inside its range. */
  predicate ValidDobString(s: string)
  {
    && |s| == 10 && s[2] == '/' && s[5] == '/'
    && IsDigits(s[0..2]) && IsDigits(s[3..5]) && IsDigits(s[6..10])
    && 1 <= ToInt(s[0..2]) <= 31 && 1 <= ToInt(s[3..5]) <= 12 && 1900 <= ToInt(s[6..10]) <= 2100
  }

  /** A formatted in-range date is ten characters whose fields read back as the date. */
  lemma FormatDateValid(dt: Date)
    requires InRange(dt)
    ensures var s := FormatDate(dt);
      ValidDobString(s) && ToInt(s[0..2]) == dt.day && ToInt(s[3..5]) == dt.month && ToInt(s[6..10]) == dt.year
  {
    Pad2RoundTrip(dt.day);
    Pad2RoundTrip(dt.month);
    NatToStringRoundTrip(dt.year);
    FourDigitText(dt.year);
    var s := FormatDate(dt);
    assert s[0..2] == Pad2(dt.day);
    assert s[3..5] == Pad2(dt.month);
    assert s[6..10] == NatToString(dt.year);
  }

  lemma {:induction false} SplitOnHasSep(s: string, sep: char)
    requires sep in s
    ensures |SplitOn(s, sep)| >= 2
    decreases |s|
  {
    if s[0] != sep {
      SplitOnHasSep(s[1..], sep);
    }
  }

  /** Every character of a cleaned token is a digit or '/'. */
  lemma CleanDobChars(raw: string)
    ensures forall k :: 0 <= k < |CleanDob(raw)| ==> IsDigitChar(CleanDob(raw)[k]) || CleanDob(raw)[k] == '/'
  {
    CleanDobPerChar(raw);
  }

  /**
   * How a cleaned string with the date prefix splits on '/': it gives three
   * numbers exactly when everything from the year on is digits.
   */
  lemma ParseDateOfPrefix(c: string)
    requires DatePrefix(c)
    requires forall k :: 0 <= k < |c| ==> IsDigitChar(c[k]) || c[k] == '/'
    ensures ParseDate(c) ==
      if AllDigits(c[6..]) then Some(Date(ToInt(c[0..2]), ToInt(c[3..5]), ToInt(c[6..]))) else None
  {
    var y := c[6..];
    DatePrefixSplit(c);
    if AllDigits(y) {
      SplitOnNoSep(y, '/');
      assert SplitOn(c, '/') == [c[0..2], c[3..5], y];
      assert AllDigits(c[0..2]) && AllDigits(c[3..5]);
    } else {
      assert '/' in y by {
        var k :| 0 <= k < |y| && !IsDigitChar(y[k]);
        assert y[k] == c[6 + k];
      }
      SplitOnHasSep(y, '/');
    }
  }

  /** The day and month pieces come off first. */
  lemma DatePrefixSplit(c: string)
    requires DatePrefix(c)
    ensures SplitOn(c, '/') == [c[0..2], c[3..5]] + SplitOn(c[6..], '/')
  {
    var a, b, y := c[0..2], c[3..5], c[6..];
    assert c == a + ['/'] + (b + ['/'] + y);
    assert '/' !in a && '/' !in b;
    SplitOnTwo(a, b, y, '/');
  }

  /**
   * A reference statement of when a raw token yields a date: its cleaned form
   * starts `DD/MM/YYYY`, everything from the year on is digits (a further '/'
   * makes the split give more than three pieces), and the day, month and
   * year, the year running to the end of the token, are in range.
   */
  lemma DobOfReference(raw: string)
    ensures var c := CleanDob(raw);
      DobOf(raw) ==
        if DatePrefix(c) && AllDigits(c[6..]) then
          var dt := Date(ToInt(c[0..2]), ToInt(c[3..5]), ToInt(c[6..]));
          if InRange(dt) then Some(FormatDate(dt)) else None
        else None
  {
    var c := CleanDob(raw);
    if DatePrefix(c) {
      CleanDobChars(raw);
      ParseDateOfPrefix(c);
    }
  }

  /** A candidate that yields a date yields a valid `DD/MM/YYYY`. */
  lemma DobOfValid(raw: string)
    ensures DobOf(raw).Some? ==> ValidDobString(DobOf(raw).value)
  {
    var c := CleanDob(raw);
    if DatePrefix(c) && ParseDate(c).Some? && InRange(ParseDate(c).value) {
      FormatDateValid(ParseDate(c).value);
    }
  }

  /** OCR look-alikes are repaired one for one: "0l/0I/2OOO" cleans to "01/01/2000". */
  lemma CleanDobExample(raw: string)
    requires raw == "0l/0I/2OOO"
    ensures CleanDob(raw) == "01/01/2000"
  {
    CleanDobPerChar(raw);
  }

  /** The date "01/01/2000" read from four sample tokens. */
  lemma FormatExample()
    ensures FormatDate(Date(1, 1, 2000)) == "01/01/2000"
  {
    assert NatToString(2000) == NatToString(200) + "0";
    assert NatToString(200) == NatToString(20) + "0";
    assert NatToString(20) == "20";
  }

  /** A token that cleans to a formatted in-range date yields that date. */
  lemma DobOfFormatted(raw: string, dt: Date)
    requires InRange(dt) && CleanDob(raw) == FormatDate(dt)
    ensures DobOf(raw) == Some(FormatDate(dt))
  {
    var s := FormatDate(dt);
    FormatDateValid(dt);
    DobOfReference(raw);
    assert s[6..] == s[6..10];
    assert DatePrefix(s);
  }

  /** Digits and '/' pass the cleaning unchanged. */
  lemma CleanDobKeeps(c: string)
    requires forall k :: 0 <= k < |c| ==> IsDigitChar(c[k]) || c[k] == '/'
    ensures CleanDob(c) == c
  {
    CleanDobPerChar(c);
  }

  /**
   * Re-reading an output: a formatted in-range date is a fixed point of the
   * cleaning and is accepted as itself.
   */
  lemma DobOfIdempotent(dt: Date)
    requires InRange(dt)
    ensures DobOf(FormatDate(dt)) == Some(FormatDate(dt))
  {
    var s := FormatDate(dt);
    FormatDateValid(dt);
    forall k | 0 <= k < |s| ensures IsDigitChar(s[k]) || s[k] == '/' {
      if k < 2 { assert s[k] == s[0..2][k]; }
      else if 2 < k < 5 { assert s[k] == s[3..5][k - 3]; }
      else if 5 < k { assert s[k] == s[6..10][k - 6]; }
    }
    CleanDobKeeps(s);
    DobOfFormatted(s, dt);
  }

  /**
   * A year written with an extra leading zero is still accepted: the year
   * piece is not limited to four digits, only its value is checked.
   */
  lemma DobOfPaddedYear(dt: Date)
    requires InRange(dt)
    ensures var s := FormatDate(dt);
      |s| == 10 && DobOf(s[..6] + ['0'] + s[6..]) == Some(s)
  {
    var s := FormatDate(dt);
    FormatDateValid(dt);
    var c := s[..6] + ['0'] + s[6..];
    assert c[6..] == ['0'] + s[6..10] by {
      assert s[6..] == s[6..10];
    }
    assert c[0..2] == s[0..2] && c[3..5] == s[3..5];
    LeadingZero(s[6..10]);
    assert CleanDob(c) == c by {
      forall k | 0 <= k < |c| ensures IsDigitChar(c[k]) || c[k] == '/' {
        if k < 2 { assert c[k] == s[0..2][k]; }
        else if 2 < k < 5 { assert c[k] == s[3..5][k - 3]; }
        else if 6 < k { assert c[k] == s[6..10][k - 7]; }
      }
      CleanDobKeeps(c);
    }
    assert DatePrefix(c) && AllDigits(c[6..]);
    DobOfReference(c);
  }

  /** A repaired token yields its date. */
  lemma RepairedDobExample(raw: string)
    requires raw == "0l/0I/2OOO"
    ensures DobOf(raw) == Some("01/01/2000")
  {
    CleanDobExample(raw);
    FormatExample();
    DobOfFormatted(raw, Date(1, 1, 2000));
  }

  /** A day out of range rejects the candidate. */
  lemma BadDayExample(c: string)
    requires c == "32/01/2000"
    ensures DobOf(c) == None
  {
    CleanDobPerChar(c);
    assert CleanDob(c) == c;
    DobOfReference(c);
    assert c[0..2] == "32";
  }

  /** A trailing separator splits into four pieces, and the candidate is skipped. */
  lemma TrailingSlashExample(c: string)
    requires c == "01/01/2000/"
    ensures DobOf(c) == None
  {
    CleanDobPerChar(c);
    assert CleanDob(c) == c;
    DobOfReference(c);
    assert c[6..][4] == '/';
  }

  /** A five-digit year whose value is in range is accepted and printed in four digits. */
  lemma LongYearExample(c: string)
    requires c == "01/01/02000"
    ensures DobOf(c) == Some("01/01/2000")
  {
    FormatExample();
    var s := FormatDate(Date(1, 1, 2000));
    assert c == s[..6] + ['0'] + s[6..];
    DobOfPaddedYear(Date(1, 1, 2000));
  }

  predicate DobAccepted(w: string) { IsDobCandidate(w) && DobOf(w).Some? }

  lemma DobFieldCons(words: seq<string>)
    requires words != []
    ensures DobField(words) == if DobAccepted(words[0]) then DobOf(words[0]) else DobField(words[1..])
  {
    var rest := DobCandidates(words[1..]);
    assert DobCandidates(words) == (if IsDobCandidate(words[0]) then [words[0]] else []) + rest;
    if IsDobCandidate(words[0]) {
      assert ([words[0]] + rest)[1..] == rest;
    } else {
      assert [] + rest == rest;
    }
  }

  /**
   * The first token in word order that has 8 to 12 characters and yields a
   * date decides the date; a candidate that fails is skipped, and "Not Found"
   * is kept only when none yields a date.
   */
  lemma {:induction false} DobFieldIsFirstDate(words: seq<string>)
    ensures DobField(words) == None <==> forall k :: 0 <= k < |words| ==> !DobAccepted(words[k])
    ensures DobField(words).Some? ==>
      exists k :: 0 <= k < |words| && DobAccepted(words[k]) && DobOf(words[k]) == DobField(words)
        && forall j :: 0 <= j < k ==> !DobAccepted(words[j])
    decreases |words|
  {
    if words == [] {
    } else if DobAccepted(words[0]) {
      DobFieldCons(words);
      assert DobField(words) == DobOf(words[0]);
    } else {
      var rest := words[1..];
      DobFieldCons(words);
      assert DobField(words) == DobField(rest);
      DobFieldIsFirstDate(rest);
      if DobField(rest).Some? {
        var k :| 0 <= k < |rest| && DobAccepted(rest[k]) && DobOf(rest[k]) == DobField(rest)
          && forall j :: 0 <= j < k ==> !DobAccepted(rest[j]);
        assert DobAccepted(words[k + 1]) && DobOf(words[k + 1]) == DobField(words);
        assert forall j :: 0 <= j < k + 1 ==> !DobAccepted(words[j]) by {
          forall j | 0 <= j < k + 1 ensures !DobAccepted(words[j]) {
            if j > 0 { assert words[j] == rest[j - 1]; }
          }
        }
      } else {
        assert forall k :: 0 <= k < |words| ==> !DobAccepted(words[k]) by {
          forall k | 0 <= k < |words| ensures !DobAccepted(words[k]) {
            if k > 0 { assert words[k] == rest[k - 1]; }
          }
        }
      }
    }
  }

  /** The date found is always a valid `DD/MM/YYYY`. */
  lemma DobFieldValid(words: seq<string>)
    ensures DobField(words).Some? ==> ValidDobString(DobField(words).value)
  {
    DobFieldIsFirstDate(words);
    if DobField(words).Some? {
      var k :| 0 <= k < |words| && DobOf(words[k]) == DobField(words);
      DobOfValid(words[k]);
    }
  }

  method FindDob(words: seq<string>) returns (dob: string)
    ensures dob == DobField(words).GetOr("Not Found")
  {
    dob := "Not Found";
    var possibleDobs := DobCandidates(words);
    for i := 0 to |possibleDobs|
      invariant FirstDob(possibleDobs[i..]) == DobField(words)
    {
      var raw := possibleDobs[i];
      assert possibleDobs[i..][1..] == possibleDobs[i + 1..];
      var cleaned := CleanDob(raw);
      if DatePrefix(cleaned) {
        var parsed := ParseDate(cleaned);
        if parsed.Some? {
          var dt := parsed.value;
          if InRange(dt) {
            dob := FormatDate(dt);
            return;
          }
        }
      }
    }
  }

  // ===========================================================================
  // Gender (app1.py:58-65)
  // ===========================================================================

  const Vocabulary: seq<string> := ["male", "female", "others"]

  /**
   * `difflib.get_close_matches(s, Vocabulary, n=1, cutoff=0.7)`, reduced to its
   * first element: a parameter, since the similarity ratio is not modelled.
   */
  type Matcher = string -> Option<string>

  /**
   * What the model relies on about that call: it only answers with a
   * vocabulary word, a vocabulary word is its own best match (ratio 1.0), and
   * the empty string matches nothing (ratio 0).
   */
  ghost predicate IsCloseMatcher(m: Matcher)
  {
    && (forall s :: m(s).Some? ==> m(s).value in Vocabulary)
    && (forall v :: v in Vocabulary ==> m(v) == Some(v))
    && m("") == None
  }

  /** `re.sub(r'[^a-zA-Z]', '', w.lower())` */
  function GenderKey(w: string): string { KeepLetters(Lower(w)) }

  /** The loop body for one token: the capitalised match, or `None` to go on. */
  function GenderAt(w: string, m: Matcher): Option<string>
  {
    match m(GenderKey(w))
    case Some(v) => Some(Capitalize(v))
    case None => None
  }

  /** The gender found, `None` where the source keeps "Not Found". */
  function GenderField(words: seq<string>, m: Matcher): Option<string>
    decreases |words|
  {
    if words == [] then None
    else if GenderAt(words[0], m).Some? then GenderAt(words[0], m)
    else GenderField(words[1..], m)
  }

  /** The first token whose cleaned form has a close match decides the gender. */
  lemma {:induction false} GenderFieldIsFirstMatch(words: seq<string>, m: Matcher)
    ensures GenderField(words, m) == None <==> forall k :: 0 <= k < |words| ==> GenderAt(words[k], m) == None
    ensures GenderField(words, m).Some? ==>
      exists k :: 0 <= k < |words| && GenderAt(words[k], m) == GenderField(words, m)
        && forall j :: 0 <= j < k ==> GenderAt(words[j], m) == None
    decreases |words|
  {
    if words == [] {
    } else if GenderAt(words[0], m).Some? {
      assert GenderField(words, m) == GenderAt(words[0], m);
    } else {
      var rest := words[1..];
      assert GenderField(words, m) == GenderField(rest, m);
      GenderFieldIsFirstMatch(rest, m);
      if GenderField(rest, m).Some? {
        var k :| 0 <= k < |rest| && GenderAt(rest[k], m) == GenderField(rest, m)
          && forall j :: 0 <= j < k ==> GenderAt(rest[j], m) == None;
        assert GenderAt(words[k + 1], m) == GenderField(words, m);
        assert forall j :: 0 <= j < k + 1 ==> GenderAt(words[j], m) == None by {
          forall j | 0 <= j < k + 1 ensures GenderAt(words[j], m) == None {
            if j > 0 { assert words[j] == rest[j - 1]; }
          }
        }
      } else {
        assert forall k :: 0 <= k < |words| ==> GenderAt(words[k], m) == None by {
          forall k | 0 <= k < |words| ensures GenderAt(words[k], m) == None {
            if k > 0 { assert words[k] == rest[k - 1]; }
          }
        }
      }
    }
  }

  lemma CapitalizedVocabulary()
    ensures Capitalize("male") == "Male"
    ensures Capitalize("female") == "Female"
    ensures Capitalize("others") == "Others"
  {
  }

  /** With a matcher of the vocabulary, the gender is "Male", "Female" or "Others". */
  lemma GenderFieldValues(words: seq<string>, m: Matcher)
    requires IsCloseMatcher(m)
    ensures GenderField(words, m).Some? ==> GenderField(words, m).value in ["Male", "Female", "Others"]
  {
    GenderFieldIsFirstMatch(words, m);
    if GenderField(words, m).Some? {
      var k :| 0 <= k < |words| && GenderAt(words[k], m) == GenderField(words, m);
      var v := m(GenderKey(words[k])).value;
      assert v in Vocabulary;
      CapitalizedVocabulary();
    }
  }

  lemma {:induction false} KeepLettersOfNoLetters(s: string)
    requires forall i :: 0 <= i < |s| ==> !IsLetter(s[i])
    ensures KeepLetters(s) == []
    decreases |s|
  {
    if s != [] {
      KeepLettersOfNoLetters(s[1..]);
    }
  }

  /** A token without letters (a number, a punctuation mark) never gives a gender. */
  lemma NoLettersNoGender(w: string, m: Matcher)
    requires IsCloseMatcher(m)
    requires forall i :: 0 <= i < |w| ==> !IsLetter(w[i])
    ensures GenderAt(w, m) == None
  {
    KeepLettersOfNoLetters(Lower(w));
  }

  lemma {:induction false} KeepLettersOfLetters(s: string)
    requires forall i :: 0 <= i < |s| ==> IsLetter(s[i])
    ensures KeepLetters(s) == s
    decreases |s|
  {
    if s != [] {
      KeepLettersOfLetters(s[1..]);
      assert [s[0]] + s[1..] == s;
    }
  }

  /** A token of letters only is just lower-cased. */
  lemma GenderKeyOfLetters(w: string)
    requires forall i :: 0 <= i < |w| ==> IsLetter(w[i])
    ensures GenderKey(w) == Lower(w)
  {
    var l := Lower(w);
    forall i | 0 <= i < |l| ensures IsLetter(l[i]) {
      assert l[i] == LowerChar(w[i]);
    }
    KeepLettersOfLetters(l);
  }

  /**
   * A token that is a vocabulary word in any mix of cases gives that word
   * capitalised: "MALE" gives "Male", "female" gives "Female".
   */
  lemma ExactGenderTokens(w: string, m: Matcher)
    requires IsCloseMatcher(m)
    requires Lower(w) in Vocabulary
    ensures GenderAt(w, m) == Some(Capitalize(Lower(w)))
    ensures GenderAt(w, m).value in ["Male", "Female", "Others"]
  {
    var l := Lower(w);
    assert forall i :: 0 <= i < |l| ==> IsLetter(l[i]) by {
      if l == "male" {
      } else if l == "female" {
      } else {
        assert l == "others";
      }
    }
    KeepLettersOfLetters(l);
    CapitalizedVocabulary();
  }

  method FindGender(words: seq<string>, m: Matcher) returns (gender: string)
    ensures gender == GenderField(words, m).GetOr("Not Found")
  {
    gender := "Not Found";
    for i := 0 to |words|
      invariant GenderField(words[i..], m) == GenderField(words, m)
    {
      assert words[i..][1..] == words[i + 1..];
      var cleaned := KeepLetters(Lower(words[i]));
      var match_ := m(cleaned);
      if match_.Some? {
        gender := Capitalize(match_.value);
        return;
      }
    }
  }

  // ===========================================================================
  // The whole extractor (app1.py:18-67)
  // ===========================================================================

  datatype AadhaarDetails = AadhaarDetails(isAadhar: bool, aadhar: Option<string>, name: string, dob: string, gender: string)

  /** The tuple `extract_aadhaar_details` returns for the word list `words`. */
  function AadhaarFields(words: seq<string>, m: Matcher): AadhaarDetails
  {
    var number := AadhaarNumber(words);
    AadhaarDetails(number.Some?, number, NameField(words).GetOr("Unknown"),
                   DobField(words).GetOr("Not Found"), GenderField(words, m).GetOr("Not Found"))
  }

  /** `text` is the OCR output of the image; `m` stands for `difflib.get_close_matches`. */
  method ExtractAadhaarDetails(text: string, m: Matcher)
    returns (isAadhar: bool, aadhar: Option<string>, name: string, dob: string, gender: string)
    ensures AadhaarDetails(isAadhar, aadhar, name, dob, gender) == AadhaarFields(SplitWords(text), m)
    ensures isAadhar <==> aadhar.Some?
    ensures aadhar.Some? ==> IsAadhaarNumber(aadhar.value)
    ensures dob == "Not Found" || ValidDobString(dob)
    ensures IsCloseMatcher(m) ==> gender in ["Male", "Female", "Others", "Not Found"]
  {
    var words := SplitWords(text);
    aadhar := FindAadhaarNumber(words);
    isAadhar := aadhar.Some?;
    name := FindName(words);
    dob := FindDob(words);
    gender := FindGender(words, m);
    AadhaarNumberFormat(words);
    DobFieldValid(words);
    if IsCloseMatcher(m) {
      GenderFieldValues(words, m);
    }
  }
}
