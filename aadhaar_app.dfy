/**
 * The second Aadhaar extractor, `extract_details` of app.py (lines 21-89).
 * Its number loop (app.py:29-38) and its date-of-birth loop (app.py:56-75)
 * are the loops of app1.py and are the same methods here; its name loop
 * walks the window with an index and `append`, and its gender loop strips
 * non-letters before lower-casing. Every field is proved equal to what
 * app1.py's `extract_aadhaar_details` returns.
 */
module AadhaarApp {
  import opened Wrappers
  import opened PyText
  import AadhaarExtractor

  /** Filtering a list that grows by one token grows the result by that token if it is alphabetic. */
  lemma {:induction false} AlphaTokensSnoc(ws: seq<string>, w: string)
    ensures AadhaarExtractor.AlphaTokens(ws + [w])
         == AadhaarExtractor.AlphaTokens(ws) + (if IsAlpha(w) then [w] else [])
    decreases |ws|
  {
    if ws == [] {
      assert [] + [w] == [w];
    } else {
      assert (ws + [w])[1..] == ws[1..] + [w];
      AlphaTokensSnoc(ws[1..], w);
    }
  }

  /** The filter over `words[lo..j + 1]` is the filter over `words[lo..j]`, extended by `words[j]` if it is alphabetic. */
  lemma AlphaTokensExtend(words: seq<string>, lo: nat, j: nat)
    requires lo <= j < |words|
    ensures AadhaarExtractor.AlphaTokens(words[lo..j + 1])
         == AadhaarExtractor.AlphaTokens(words[lo..j]) + (if IsAlpha(words[j]) then [words[j]] else [])
  {
    assert words[lo..j + 1] == words[lo..j] + [words[j]];
    AlphaTokensSnoc(words[lo..j], words[j]);
  }

  /**
   * app.py:41-51: for each `name :` label, the tokens at `i + 2` up to
   * `min(i + 5, len(words))` that are alphabetic are appended one by one;
   * the name is the same as app1.py's slice-and-filter gives.
   */
  method FindName(words: seq<string>) returns (name: string)
    ensures name == AadhaarExtractor.NameField(words).GetOr("Unknown")
  {
    name := "Unknown";
    for i := 0 to |words|
      invariant AadhaarExtractor.NameFrom(words, i) == AadhaarExtractor.NameField(words)
    {
      if Lower(words[i]) == "name" && i + 2 < |words| {
        if words[i + 1] == ":" {
          var nameParts: seq<string> := [];
          for j := i + 2 to Min(i + 5, |words|)
            invariant nameParts == AadhaarExtractor.AlphaTokens(words[i + 2..j])
          {
            AlphaTokensExtend(words, i + 2, j);
            if IsAlpha(words[j]) {
              nameParts := nameParts + [words[j]];
            }
          }
          assert nameParts == AadhaarExtractor.AlphaTokens(AadhaarExtractor.Window(words, i));
          if nameParts != [] {
            name := JoinSpace(nameParts);
            assert AadhaarExtractor.NameFrom(words, i) == Some(name);
            return;
          }
        }
      }
      assert AadhaarExtractor.NameFrom(words, i) == AadhaarExtractor.NameFrom(words, i + 1);
    }
  }

  /**
   * Removing non-letters and lower-casing commute, so app.py's
   * `re.sub(r'[^a-zA-Z]', '', word).lower()` is app1.py's
   * `re.sub(r'[^a-zA-Z]', '', w.lower())`.
   */
  lemma {:induction false} LettersThenLower(w: string)
    ensures Lower(KeepLetters(w)) == KeepLetters(Lower(w))
    decreases |w|
  {
    if w != [] {
      LettersThenLower(w[1..]);
      var head := if IsLetter(w[0]) then [w[0]] else [];
      assert KeepLetters(w) == head + KeepLetters(w[1..]);
      assert Lower(head + KeepLetters(w[1..])) == Lower(head) + Lower(KeepLetters(w[1..]));
      assert Lower(w)[1..] == Lower(w[1..]);
      assert Lower(w)[0] == LowerChar(w[0]);
    }
  }

  /** app.py:79-87: the first token whose letters, lower-cased, have a close match. */
  method FindGender(words: seq<string>, m: AadhaarExtractor.Matcher) returns (gender: string)
    ensures gender == AadhaarExtractor.GenderField(words, m).GetOr("Not Found")
  {
    gender := "Not Found";
    for i := 0 to |words|
      invariant AadhaarExtractor.GenderField(words[i..], m) == AadhaarExtractor.GenderField(words, m)
    {
      assert words[i..][1..] == words[i + 1..];
      var cleaned := Lower(KeepLetters(words[i]));
      LettersThenLower(words[i]);
      var bestMatch := m(cleaned);
      if bestMatch.Some? {
        gender := Capitalize(bestMatch.value);
        return;
      }
    }
  }

  /**
   * app.py:21-89: the five fields equal those of app1.py's extractor on the
   * same text, and the sixth value is the OCR text itself.
   */
  method ExtractDetails(text: string, m: AadhaarExtractor.Matcher)
    returns (isAadhar: bool, aadhar: Option<string>, name: string, dob: string, gender: string, raw: string)
    ensures AadhaarExtractor.AadhaarDetails(isAadhar, aadhar, name, dob, gender)
         == AadhaarExtractor.AadhaarFields(SplitWords(text), m)
    ensures raw == text
  {
    var words := SplitWords(text);
    aadhar := AadhaarExtractor.FindAadhaarNumber(words);
    isAadhar := aadhar.Some?;
    name := FindName(words);
    dob := AadhaarExtractor.FindDob(words);
    gender := FindGender(words, m);
    raw := text;
  }
}
