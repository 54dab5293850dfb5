# Aadhaar and PAN card field extraction — a Dafny model

This project models the text-processing core of a small document-verification
tool for Indian identity cards. The tool runs OCR on an uploaded image and
reads fields out of the resulting text with first-match scans:

- **Aadhaar card** (`extract_aadhaar_details` in `app1.py`):
  - the 12-digit number, from three adjacent 4-digit words;
  - the name, after a `name :` label;
  - the date of birth, from OCR-repaired 8-12 character words;
  - the gender, by fuzzy match against `male` / `female` / `others`.
- **PAN card** (`extract_pan_details` in `app1.py`):
  - the PAN number (`AAAAA9999A`);
  - a one-word upper-case name after the token that holds the number;
  - the first `dd/dd/dddd` of the text.
- **The second Aadhaar extractor** (`extract_details` in `app.py`). It repeats
  the Aadhaar logic with a hand-written name loop and a different cleaning
  order for the gender. The model proves that its five fields equal those of
  `extract_aadhaar_details`.
- **The stand-alone checker** (`Adhaar/check.py`):
  - it strips the OCR words and takes the leftmost valid 4-4-4 triple;
  - it guesses the name as the nearest earlier word that is not a number;
  - it confirms the card exactly when a number was found.

Files:

- `wrappers.dfy`: `Option`.
- `pytext.dfy`: the Python string operations the code relies on, over ASCII:
  - `isdigit`, `isalpha`, `isupper`, `lower`, `upper`, `capitalize`;
  - `strip`, `split()`, `split(sep)`, `" ".join`, `replace`;
  - `in` on strings, `int`, and `f"{n}"` / `f"{n:02d}"`.
- `aadhaar_extractor.dfy`, `pan_extractor.dfy`, `aadhaar_app.dfy` and
  `aadhaar_check.dfy`: one module per source function or script.

The same pattern is used for every scan:

- A recursive specification function returns the first hit or `None`. `None`
  stands for the source's sentinel: `"Unknown"`, `"Not Found"` or `None`.
- A characterisation lemma proves both directions:
  - the result is `None` exactly when no candidate qualifies;
  - otherwise it comes from the leftmost qualifying candidate, and every
    earlier candidate failed.
- A method with the source's loop and `break`s is proved equal to that
  function.

Regular expressions are written out as character predicates. In Python, `$`
also matches just before a final newline, and the model keeps that
alternative. The OCR text is the input of each top-level method.

## Model

| member | source | states |
|---|---|---|
| PyText.SplitWordsTokens | app1.py:20 | every word of `text.split()` is non-empty and holds no whitespace |
| PyText.SplitJoinRoundTrip | app1.py:40 | splitting the `" ".join` of non-empty whitespace-free words gives the words back |
| PyText.SplitOn | app1.py:51 | `split('/')` gives at least one piece and no piece holds the separator |
| PyText.SplitOnFirst | app1.py:51 | splitting `a + sep + b` where `a` lacks the separator gives `a` followed by the pieces of `b` |
| PyText.NatToStringRoundTrip | app1.py:53 | `f"{n}"` is all digits and `int` reads it back as `n` |
| PyText.Pad2RoundTrip | app1.py:53 | `f"{n:02d}"` for `n < 100` is two digits that read back as `n` |
| PyText.StripEnds | app1.py:97 | a stripped string is empty or starts and ends with a non-whitespace character |
| PyText.StripNoSpace | Adhaar/check.py:69-71 | stripping a whitespace-free word leaves it unchanged |
| PyText.ReplaceCharPerChar | app1.py:92 | `replace` of one character keeps the length and changes exactly the occurrences of that character |
| PyText.ContainsNeedsChar | app1.py:105 | a string without some character of `sub` does not contain `sub` |
| AadhaarExtractor.NumberFromFirst | app1.py:25-31 | the scan from index `i` finds nothing exactly when no later triple is accepted; otherwise it returns the leftmost accepted triple from `i` on |
| AadhaarExtractor.AadhaarNumberIsLeftmostTriple | app1.py:24-32 | the number is `None` exactly when no adjacent triple is three 4-digit words that concatenate to a match; otherwise it is the leftmost such triple; conversely every leftmost accepted triple is the result (so fewer than three words give `None`) |
| AadhaarExtractor.AadhaarNumberFormat | app1.py:27-30 | a found number is twelve digits whose first digit is 2-9 |
| AadhaarExtractor.DigitGroupsAccepted | app1.py:27-29 | for three 4-digit words the pattern test is only "first digit 2-9"; a triple starting with 0 or 1 is rejected and the scan goes on |
| AadhaarExtractor.FindAadhaarNumber | app1.py:24-31 | the loop with its `break` returns the number of the specification |
| AadhaarExtractor.AlphaTokensAlpha | app1.py:38 | the filter keeps no more tokens than it is given, and all of them are alphabetic |
| AadhaarExtractor.AlphaTokensMembers | app1.py:38 | a token is kept exactly when it is in the window and alphabetic; other tokens are skipped, not terminators |
| AadhaarExtractor.NameFromFirst | app1.py:36-41 | the scan from `i` finds nothing exactly when no later index has a `name :` label with an alphabetic token in its window; otherwise it takes the first such index |
| AadhaarExtractor.NameFieldIsFirstLabel | app1.py:35-41 | the name is "Unknown" exactly when no index qualifies; otherwise it comes from the first qualifying label, and an earlier label whose window has no alphabetic token does not stop the search |
| AadhaarExtractor.NameFieldWords | app1.py:38-40 | a found name splits back into one to three alphabetic words, each a word of the input |
| AadhaarExtractor.FindName | app1.py:35-41 | the loop returns the name of the specification, or "Unknown" |
| AadhaarExtractor.DobCandidates | app1.py:45 | a word is a candidate exactly when it is in the list and is 8 to 12 characters long |
| AadhaarExtractor.CleanDobPerChar | app1.py:47-48 | cleaning keeps the length and maps each character on its own: `O`/`o` to `0`, `I`/`l` to `1`, digits to themselves, everything else (lower-case `i` included) to `/` |
| AadhaarExtractor.CleanDobChars | app1.py:48 | every character of a cleaned word is a digit or `/` |
| AadhaarExtractor.CleanDobKeeps | app1.py:47-48 | a string of digits and `/` passes the cleaning unchanged |
| AadhaarExtractor.CleanDobExample | app1.py:47-48 | "0l/0I/2OOO" cleans to "01/01/2000" |
| AadhaarExtractor.FormatDateValid | app1.py:53 | an in-range date formats to ten characters `DD/MM/YYYY` whose fields read back as the date |
| AadhaarExtractor.ParseDateOfPrefix | app1.py:51 | on a cleaned string with the `dd/dd/dddd` prefix, `map(int, split('/'))` gives three numbers exactly when everything from the year on is digits, and they are the day, month and year read there |
| PyText.LeadingZero | app1.py:51 | a leading zero does not change the value `int` reads |
| AadhaarExtractor.DobOfReference | app1.py:49-56 | a candidate yields a date exactly when its cleaned form starts `dd/dd/dddd`, everything from the year on is digits, and day, month and year are in range; the date is then the formatted triple |
| AadhaarExtractor.DobOfValid | app1.py:52-53 | a candidate that yields a date yields a valid in-range `DD/MM/YYYY` |
| AadhaarExtractor.DobOfFormatted | app1.py:49-53 | a word that cleans to a formatted in-range date yields that date |
| AadhaarExtractor.DobOfIdempotent | app1.py:47-53 | a formatted in-range date is unchanged by the cleaning and is accepted as itself |
| AadhaarExtractor.DobOfPaddedYear | app1.py:51-53 | a date whose year has an extra leading zero is accepted, and printed with a four-digit year |
| AadhaarExtractor.RepairedDobExample | app1.py:45-53 | the OCR-damaged word "0l/0I/2OOO" yields "01/01/2000" |
| AadhaarExtractor.BadDayExample | app1.py:52 | "32/01/2000" is rejected by the day range |
| AadhaarExtractor.TrailingSlashExample | app1.py:50-56 | "01/01/2000/" splits into four pieces, raises in the unpacking, and is skipped |
| AadhaarExtractor.LongYearExample | app1.py:51-53 | a five-digit year with an in-range value is accepted: "01/01/02000" yields "01/01/2000" |
| AadhaarExtractor.DobFieldCons | app1.py:45-56 | the date of a word list is the first word's date when that word is an accepted candidate, and otherwise the date of the rest |
| AadhaarExtractor.DobFieldIsFirstDate | app1.py:45-56 | the date is "Not Found" exactly when no word is an accepted candidate; otherwise it comes from the first accepted word in token order |
| AadhaarExtractor.DobFieldValid | app1.py:44-56 | a found date is a valid in-range `DD/MM/YYYY` |
| AadhaarExtractor.FindDob | app1.py:44-56 | the loop over the candidates returns the date of the specification, or "Not Found" |
| AadhaarExtractor.GenderFieldIsFirstMatch | app1.py:59-65 | the gender is "Not Found" exactly when no word's cleaned form has a close match; otherwise it comes from the first word that has one |
| AadhaarExtractor.CapitalizedVocabulary | app1.py:64 | `capitalize` turns the three vocabulary words into "Male", "Female", "Others" |
| AadhaarExtractor.GenderFieldValues | app1.py:59-65 | a found gender is one of "Male", "Female", "Others" |
| AadhaarExtractor.NoLettersNoGender | app1.py:61-63 | a word with no letters cleans to the empty string and never matches |
| AadhaarExtractor.GenderKeyOfLetters | app1.py:61 | a token of letters only is cleaned to its lower-case form |
| AadhaarExtractor.ExactGenderTokens | app1.py:61-64 | a token that is a vocabulary word in any mix of cases (such as "MALE" or "Female") gives that word capitalised, one of "Male", "Female", "Others" |
| AadhaarExtractor.FindGender | app1.py:59-65 | the loop returns the gender of the specification, or "Not Found" |
| AadhaarExtractor.ExtractAadhaarDetails | app1.py:18-67 | the five results are the specified fields of `text.split()`; `is_aadhar` holds exactly when a number was found; a found number is twelve digits starting 2-9; the date is "Not Found" or a valid `DD/MM/YYYY`; the gender is one of four strings |
| PanExtractor.PanNumberIsFirstMatch | app1.py:95-100 | the PAN is "Not Found" exactly when no word's upper-cased stripped form matches; otherwise it comes from the first word that matches |
| PanExtractor.PanAtFormat | app1.py:97-99 | a word that matches yields five upper-case letters, four digits and an upper-case letter |
| PanExtractor.PanNumberFormat | app1.py:95-100 | a found PAN is ten characters in the `AAAAA9999A` format |
| PanExtractor.PanAtOfToken | app1.py:97-99 | for a whitespace-free word the PAN taken is the word upper-cased |
| PanExtractor.FindPanNumber | app1.py:95-100 | the loop returns the PAN of the specification, or "Not Found" |
| PanExtractor.NameWordAfterIsFirst | app1.py:106-109 | the inner loop takes the first later word that is alphabetic, upper-case and longer than three characters, or nothing if there is none |
| PanExtractor.PanNameFromIsAfterFirstContaining | app1.py:104-110 | the outer scan from `i` finds nothing if no later word contains the number; otherwise it takes the name word after the first containing word |
| PanExtractor.PanNameIsAfterFirstContaining | app1.py:103-110 | the name is "Unknown" if no word contains the PAN; otherwise it is the first name word after the first word that contains it, and only that word decides |
| PanExtractor.NotFoundHasNoName | app1.py:95-110 | when the PAN is "Not Found" the name stays "Unknown": no word of `split()` holds the space in the sentinel |
| PanExtractor.ContainsSameLength | app1.py:105 | for equal lengths, `sub in s` holds exactly when the two strings are equal |
| PanExtractor.LowerCaseSourceToken | app1.py:97-105 | a word with a lower-case letter does not contain the upper-cased PAN it produced, so that word does not select the name |
| PanExtractor.FindPanName | app1.py:103-110 | the nested loops with their two `break`s return the name of the specification, or "Unknown" |
| PanExtractor.SearchDateFromLeftmost | app1.py:114 | the search from position `k` finds nothing exactly when no later position starts `dd/dd/dddd`; otherwise it returns the ten characters at the leftmost one |
| PanExtractor.SearchDateIsLeftmost | app1.py:113-116 | the date is "Not Found" exactly when the text holds no `dd/dd/dddd`; otherwise it is the leftmost occurrence, taken as it stands |
| PanExtractor.NewlinesDoNotMatter | app1.py:92-114 | replacing newlines by spaces never changes what the date search finds |
| PanExtractor.NoRangeCheck | app1.py:113-116 | no range is checked: "DOB 99/99/0000" yields "99/99/0000" |
| PanExtractor.ExtractPanDetails | app1.py:89-118 | the three results are the specified fields; the PAN is "Not Found" or in `AAAAA9999A` format; with no PAN the name is "Unknown" |
| AadhaarApp.AlphaTokensSnoc | app.py:46-48 | appending the alphabetic tokens one by one builds the same list as the filter of app1.py:38 |
| AadhaarApp.AlphaTokensExtend | app.py:46-48 | one step of the inner loop: the filter over `words[i + 2..j + 1]` is the filter over `words[i + 2..j]` extended by `words[j]` when it is alphabetic |
| AadhaarApp.FindName | app.py:41-51 | the index loop with `append` returns exactly app1.py's name, or "Unknown" |
| AadhaarApp.LettersThenLower | app.py:83 | removing non-letters and then lower-casing gives the same string as app1.py's lower-casing then removing |
| AadhaarApp.FindGender | app.py:80-87 | the loop returns exactly app1.py's gender, or "Not Found" |
| AadhaarApp.ExtractDetails | app.py:21-89 | the first five results equal `extract_aadhaar_details` on the same text, and the sixth is the OCR text unchanged |
| AadhaarCheck.ComboIsTwelveDigits | Adhaar/check.py:35-37 | for newline-free parts the combo test holds exactly when the joined parts are twelve digits, the first from 2 to 9 |
| AadhaarCheck.ComboFromIsLeftmost | Adhaar/check.py:68-83 | the scan stops at the leftmost index where the three stripped words are 4-digit strings that pass the combo test; every earlier index fails; none is found exactly when no index qualifies |
| AadhaarCheck.NameBeforeIsNearest | Adhaar/check.py:78-82 | the name guess is the stripped word at the greatest index below the triple that is non-empty and not all digits once spaces are removed; it is `None` exactly when there is no such word |
| AadhaarCheck.CheckScanFormat | Adhaar/check.py:76-91 | the card is confirmed exactly when a number was found; a found number is twelve digits starting 2-9; no name is guessed without a number |
| AadhaarCheck.ComboFromAgrees | Adhaar/check.py:68-77 | on whitespace-free words the scan from `i` finds the same number as app1.py's scan from `i` |
| AadhaarCheck.CheckAgreesWithApp | Adhaar/check.py:68-77 | on whitespace-free words the checker finds the same number as app1.py:24-31 |
| AadhaarCheck.ScanTextList | Adhaar/check.py:64-91 | the loops with their `break`s produce the number, the name guess and the confirmation of the specification |

## Left out

- The Streamlit UI is not modelled: page set-up, tabs, uploaders and download buttons are presentation only.
- The FPDF report generation is not modelled: it is file output through a foreign library.
- The OCR calls (`pytesseract.image_to_string`, `image_to_data`) and the Tesseract path are not modelled. The OCR text, or for `Adhaar/check.py` the OCR word list, is the input.
- `difflib.get_close_matches` is not reimplemented. Its similarity ratio is floating point and its code is not part of this model. It is a parameter `m: string -> Option<string>`. The gender results are proved under the predicate `IsCloseMatcher`, which says that:
  - a result is a vocabulary word;
  - each vocabulary word matches itself;
  - the empty string matches nothing.
- Only ASCII is modelled. Python's `isdigit`, `isalpha`, `isupper`, `lower`, `upper` and regex `\d` also accept or map other Unicode characters. Here they are ASCII-only, and `strip`/`split` whitespace is the ASCII set plus the separators U+001C-U+001F.
- `int()` is modelled only on the pieces that can reach it here: ASCII digit strings. An empty piece raises, and that is the `None` path. Signs, underscores and surrounding whitespace cannot occur after the cleaning.
- `clean_text` (app1.py:21, app.py:26) is computed and never used, so it is not modelled.
- The image loading, the box drawing and the display in `Adhaar/check.py` are not modelled: image I/O and floating point. The confidence and aspect-ratio filter there only decides which boxes are drawn. The scan reads the whole unfiltered word list, and that list is the input of `AadhaarCheck.ScanTextList`.
- The printing of `Adhaar/check.py` is not modelled. `AadhaarCheck.ScanTextList` returns what is printed.
- No Aadhaar checksum (Verhoeff) is modelled, because the source checks only the length and the first digit.
- Each source function is split into one method per scan, composed by a top-level method. The local names and the order of evaluation are kept.
