/**
 * The Python `str` operations the field extractors rely on, restricted to
 * ASCII: `isdigit`, `isalpha`, `isupper`, `lower`, `upper`, `capitalize`,
 * `strip`, `split()`, `split(sep)`, `" ".join`, `"".join`, `replace`, the
 * substring test `in`, `int(...)` on digit strings and `f"{n}"` / `f"{n:02d}"`.
 */
module PyText {

  // ---------------------------------------------------------------------------
  // Character classes (ASCII)
  // ---------------------------------------------------------------------------

  predicate IsDigitChar(c: char) { '0' <= c <= '9' }
  predicate IsUpperChar(c: char) { 'A' <= c <= 'Z' }
  predicate IsLowerChar(c: char) { 'a' <= c <= 'z' }
  predicate IsLetter(c: char) { IsUpperChar(c) || IsLowerChar(c) }

  /** The ASCII characters that `str.split()` and `str.strip()` treat as whitespace. */
  predicate IsSpace(c: char) { c == ' ' || '\t' <= c <= '\r' || '\U{1C}' <= c <= '\U{1F}' }

  function LowerChar(c: char): char { if IsUpperChar(c) then (c as int + 32) as char else c }
  function UpperChar(c: char): char { if IsLowerChar(c) then (c as int - 32) as char else c }

  function DigitValue(c: char): nat
    requires IsDigitChar(c)
  {
    c as int - '0' as int
  }

  function DigitChar(d: nat): char
    requires d < 10
  {
    ('0' as int + d) as char
  }

  // ---------------------------------------------------------------------------
  // Predicates on strings
  // ---------------------------------------------------------------------------

  predicate AllDigits(s: string) { forall i :: 0 <= i < |s| ==> IsDigitChar(s[i]) }

  /** `s.isdigit()` */
  predicate IsDigits(s: string) { |s| > 0 && AllDigits(s) }

  /** `s.isalpha()` */
  predicate IsAlpha(s: string) { |s| > 0 && forall i :: 0 <= i < |s| ==> IsLetter(s[i]) }

  /** `s.isupper()`: some cased character and no lower-case one. */
  predicate IsUpperStr(s: string)
  {
    (exists i :: 0 <= i < |s| && IsLetter(s[i])) && forall i :: 0 <= i < |s| ==> !IsLowerChar(s[i])
  }

  /** No whitespace at all: what every token of `str.split()` satisfies. */
  predicate NoSpace(s: string) { forall i :: 0 <= i < |s| ==> !IsSpace(s[i]) }

  // ---------------------------------------------------------------------------
  // Character-for-character maps
  // ---------------------------------------------------------------------------

  /** `s.lower()` */
  function Lower(s: string): string { seq(|s|, i requires 0 <= i < |s| => LowerChar(s[i])) }

  /** `s.upper()` */
  function Upper(s: string): string { seq(|s|, i requires 0 <= i < |s| => UpperChar(s[i])) }

  /** `s.replace(x, y)` for one-character `x` and `y`. */
  function ReplaceChar(s: string, x: char, y: char): string
    decreases |s|
  {
    if s == [] then [] else [if s[0] == x then y else s[0]] + ReplaceChar(s[1..], x, y)
  }

  /** `re.sub(r'[^0-9]', y, s)`: every non-digit becomes `y`. */
  function SubNonDigits(s: string, y: char): string
    decreases |s|
  {
    if s == [] then [] else [if IsDigitChar(s[0]) then s[0] else y] + SubNonDigits(s[1..], y)
  }

  /** `re.sub(r'[^a-zA-Z]', '', s)`: only the letters, in order. */
  function KeepLetters(s: string): string
    decreases |s|
  {
    if s == [] then [] else (if IsLetter(s[0]) then [s[0]] else []) + KeepLetters(s[1..])
  }

  /** `s.replace(c, "")` */
  function RemoveChar(s: string, c: char): string
    decreases |s|
  {
    if s == [] then [] else (if s[0] == c then [] else [s[0]]) + RemoveChar(s[1..], c)
  }

  /** `s.capitalize()`: first character upper case, the rest lower case. */
  function Capitalize(s: string): string
  {
    if s == [] then [] else [UpperChar(s[0])] + Lower(s[1..])
  }

  // ---------------------------------------------------------------------------
  // Substrings, stripping, splitting and joining
  // ---------------------------------------------------------------------------

  /** `sub in s` */
  function Contains(s: string, sub: string): bool
    decreases |s|
  {
    if |sub| > |s| then false
    else if s[..|sub|] == sub then true
    else |s| > 0 && Contains(s[1..], sub)
  }

  function StripLeft(s: string): string
    decreases |s|
  {
    if |s| > 0 && IsSpace(s[0]) then StripLeft(s[1..]) else s
  }

  function StripRight(s: string): string
    decreases |s|
  {
    if |s| > 0 && IsSpace(s[|s| - 1]) then StripRight(s[..|s| - 1]) else s
  }

  /** `s.strip()` */
  function Strip(s: string): string { StripRight(StripLeft(s)) }

  /** `"".join(parts)` */
  function Concat(parts: seq<string>): string
    decreases |parts|
  {
    if parts == [] then [] else parts[0] + Concat(parts[1..])
  }

  /** `" ".join(parts)` */
  function JoinSpace(parts: seq<string>): string
    decreases |parts|
  {
    if parts == [] then []
    else if |parts| == 1 then parts[0]
    else parts[0] + " " + JoinSpace(parts[1..])
  }

  /** `s.split(sep)` for a one-character separator: never an empty list. */
  function SplitOn(s: string, sep: char): (r: seq<string>)
    ensures |r| >= 1
    ensures forall k :: 0 <= k < |r| ==> sep !in r[k]
    decreases |s|
  {
    if s == [] then [[]]
    else
      var rest := SplitOn(s[1..], sep);
      if s[0] == sep then [[]] + rest
      else [[s[0]] + rest[0]] + rest[1..]
  }

  /**
   * `s.split()`: maximal runs of non-whitespace, left to right; `cur` is the
   * word read so far.
   */
  function SplitAcc(s: string, cur: string): seq<string>
    decreases |s|
  {
    if s == [] then (if cur == [] then [] else [cur])
    else if IsSpace(s[0]) then (if cur == [] then [] else [cur]) + SplitAcc(s[1..], [])
    else SplitAcc(s[1..], cur + [s[0]])
  }

  function SplitWords(s: string): seq<string> { SplitAcc(s, []) }

  // ---------------------------------------------------------------------------
  // Integers and their decimal text
  // ---------------------------------------------------------------------------

  /** `int(s)` on a string of ASCII digits (leading zeros allowed). */
  function ToInt(s: string): nat
    requires AllDigits(s)
    decreases |s|
  {
    if s == [] then 0 else ToInt(s[..|s| - 1]) * 10 + DigitValue(s[|s| - 1])
  }

  /** `f"{n}"` */
  function NatToString(n: nat): string
    decreases n
  {
    if n < 10 then [DigitChar(n)] else NatToString(n / 10) + [DigitChar(n % 10)]
  }

  /** `f"{n:02d}"` */
  function Pad2(n: nat): string
  {
    if n < 10 then "0" + NatToString(n) else NatToString(n)
  }

  function Min(a: int, b: int): int { if a <= b then a else b }

  // ---------------------------------------------------------------------------
  // Lemmas
  // ---------------------------------------------------------------------------

  /** Decimal printing and `int(...)` are inverse: `int(f"{n}") == n`. */
  lemma {:induction false} NatToStringRoundTrip(n: nat)
    ensures IsDigits(NatToString(n)) && ToInt(NatToString(n)) == n
  {
    var s := NatToString(n);
    if n < 10 {
      assert s[..0] == [];
    } else {
      NatToStringRoundTrip(n / 10);
      assert s[..|s| - 1] == NatToString(n / 10);
    }
  }

  /** A number from 1000 to 9999 prints as exactly four digits. */
  lemma FourDigitText(n: nat)
    requires 1000 <= n <= 9999
    ensures |NatToString(n)| == 4
  {
    assert NatToString(n / 1000) == [DigitChar(n / 1000)];
    assert |NatToString(n / 100)| == 2;
    assert |NatToString(n / 10)| == 3;
  }

  /** `f"{n:02d}"` of a number below 100 is two digits that read back as `n`. */
  lemma Pad2RoundTrip(n: nat)
    requires n < 100
    ensures |Pad2(n)| == 2 && IsDigits(Pad2(n)) && ToInt(Pad2(n)) == n
  {
    NatToStringRoundTrip(n);
    var s := Pad2(n);
    if n < 10 {
      assert s[..1] == "0";
      assert ToInt("0") == 0 by { assert "0"[..0] == []; }
    } else {
      assert NatToString(n / 10) == [DigitChar(n / 10)];
    }
  }

  /** `split()` cannot separate the characters of a word it is reading. */
  lemma {:induction false} SplitAccWord(w: string, rest: string, cur: string)
    requires NoSpace(w)
    ensures SplitAcc(w + rest, cur) == SplitAcc(rest, cur + w)
    decreases |w|
  {
    if w == [] {
      assert w + rest == rest && cur + w == cur;
    } else {
      assert (w + rest)[1..] == w[1..] + rest;
      SplitAccWord(w[1..], rest, cur + [w[0]]);
      assert cur + [w[0]] + w[1..] == cur + w;
    }
  }

  /** Every token of `split()` is non-empty and free of whitespace. */
  lemma {:induction false} SplitAccTokens(s: string, cur: string)
    requires NoSpace(cur)
    ensures forall k :: 0 <= k < |SplitAcc(s, cur)| ==> SplitAcc(s, cur)[k] != [] && NoSpace(SplitAcc(s, cur)[k])
    decreases |s|
  {
    if s != [] {
      if IsSpace(s[0]) {
        SplitAccTokens(s[1..], []);
      } else {
        SplitAccTokens(s[1..], cur + [s[0]]);
      }
    }
  }

  lemma SplitWordsTokens(s: string)
    ensures forall k :: 0 <= k < |SplitWords(s)| ==> SplitWords(s)[k] != [] && NoSpace(SplitWords(s)[k])
  {
    SplitAccTokens(s, []);
  }

  /**
   * Joining non-empty, whitespace-free words with single spaces and splitting
   * the result gives back the words.
   */
  lemma {:induction false} SplitJoinRoundTrip(parts: seq<string>)
    requires forall k :: 0 <= k < |parts| ==> parts[k] != [] && NoSpace(parts[k])
    ensures SplitWords(JoinSpace(parts)) == parts
    decreases |parts|
  {
    if |parts| == 1 {
      SplitAccWord(parts[0], [], []);
      assert parts[0] + [] == parts[0] && [] + parts[0] == parts[0];
    } else if |parts| > 1 {
      var p, j := parts[0], JoinSpace(parts[1..]);
      assert JoinSpace(parts) == p + (" " + j);
      SplitAccWord(p, " " + j, []);
      assert [] + p == p;
      assert (" " + j)[1..] == j;
      SplitJoinRoundTrip(parts[1..]);
      assert parts == [p] + parts[1..];
    }
  }

  /** `replace` of one character by another maps the string character by character. */
  lemma {:induction false} ReplaceCharPerChar(s: string, x: char, y: char)
    ensures |ReplaceChar(s, x, y)| == |s|
    ensures forall k :: 0 <= k < |s| ==> ReplaceChar(s, x, y)[k] == if s[k] == x then y else s[k]
    decreases |s|
  {
    if s != [] {
      ReplaceCharPerChar(s[1..], x, y);
    }
  }

  /** A character found in no part is not in their concatenation. */
  /** Two separator-free pieces come off the front one after the other. */
  lemma SplitOnTwo(a: string, b: string, y: string, sep: char)
    requires sep !in a && sep !in b
    ensures SplitOn(a + [sep] + (b + [sep] + y), sep) == [a, b] + SplitOn(y, sep)
  {
    SplitOnFirst(a, b + [sep] + y, sep);
    SplitOnFirst(b, y, sep);
  }

  /** A leading zero does not change the value `int` reads. */
  lemma {:induction false} LeadingZero(s: string)
    requires AllDigits(s)
    ensures AllDigits(['0'] + s) && ToInt(['0'] + s) == ToInt(s)
    decreases |s|
  {
    var t := ['0'] + s;
    if s == [] {
      assert t[..0] == [];
    } else {
      var init := s[..|s| - 1];
      assert t[..|t| - 1] == ['0'] + init;
      LeadingZero(init);
    }
  }

  /** Joining three parts is their concatenation. */
  lemma Concat3(a: string, b: string, c: string)
    ensures Concat([a, b, c]) == a + b + c
  {
    assert [a, b, c][1..] == [b, c];
    assert [b, c][1..] == [c];
    assert [c][1..] == [];
    assert Concat([c]) == c;
  }

  lemma {:induction false} ConcatLacks(parts: seq<string>, c: char)
    requires forall k :: 0 <= k < |parts| ==> c !in parts[k]
    ensures c !in Concat(parts)
    decreases |parts|
  {
    if parts != [] {
      ConcatLacks(parts[1..], c);
    }
  }

  /** A string that lacks some character of `sub` does not contain `sub`. */
  lemma {:induction false} ContainsNeedsChar(s: string, sub: string, c: char)
    requires c in sub && c !in s
    ensures !Contains(s, sub)
    decreases |s|
  {
    if |sub| <= |s| {
      var k :| 0 <= k < |sub| && sub[k] == c;
      assert s[k] == c ==> c in s;
      if |s| > 0 {
        ContainsNeedsChar(s[1..], sub, c);
      }
    }
  }

  /** Stripping a whitespace-free string leaves it unchanged. */
  lemma StripNoSpace(s: string)
    requires NoSpace(s)
    ensures Strip(s) == s
  {
  }

  /** Stripping leaves no whitespace at either end. */
  lemma {:induction false} StripEnds(s: string)
    ensures var t := Strip(s); t == [] || (!IsSpace(t[0]) && !IsSpace(t[|t| - 1]))
  {
    var l := StripLeft(s);
    StripLeftFirst(s);
    StripRightKeeps(l);
  }

  lemma {:induction false} StripLeftFirst(s: string)
    ensures var l := StripLeft(s); l == [] || !IsSpace(l[0])
    decreases |s|
  {
    if |s| > 0 && IsSpace(s[0]) {
      StripLeftFirst(s[1..]);
    }
  }

  lemma {:induction false} StripRightKeeps(s: string)
    requires s == [] || !IsSpace(s[0])
    ensures var r := StripRight(s); r == [] || (!IsSpace(r[0]) && !IsSpace(r[|r| - 1]))
    decreases |s|
  {
    if |s| > 0 && IsSpace(s[|s| - 1]) {
      StripRightKeeps(s[..|s| - 1]);
    }
  }

  /** `s.split(sep)` of a string without `sep` is the one-element list `[s]`. */
  lemma {:induction false} SplitOnNoSep(s: string, sep: char)
    requires sep !in s
    ensures SplitOn(s, sep) == [s]
    decreases |s|
  {
    if s != [] {
      SplitOnNoSep(s[1..], sep);
      assert [s[0]] + s[1..] == s;
    }
  }

  /** Splitting at the first separator: `(a + sep + b).split(sep) == [a] + b.split(sep)`. */
  lemma {:induction false} SplitOnFirst(a: string, b: string, sep: char)
    requires sep !in a
    ensures SplitOn(a + [sep] + b, sep) == [a] + SplitOn(b, sep)
    decreases |a|
  {
    var s := a + [sep] + b;
    if a == [] {
      assert s[1..] == b;
    } else {
      assert s[1..] == a[1..] + [sep] + b;
      SplitOnFirst(a[1..], b, sep);
      assert [a[0]] + a[1..] == a;
    }
  }
}
