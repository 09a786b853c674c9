/**
 * The few .NET string operations the import engine relies on: `char.IsWhiteSpace`,
 * `string.IsNullOrWhiteSpace`, `Trim`, `ToLowerInvariant`/`ToUpperInvariant`,
 * `char.IsLetterOrDigit`, ordinal case-insensitive equality and integer formatting.
 * Case mapping is exact on ASCII; other characters are left as they are.
 */
module Text {
  import opened Wrappers

  /** The characters `char.IsWhiteSpace` accepts (Unicode categories Zs, Zl, Zp and the C0/C1 controls it lists). */
  predicate IsWhiteSpace(c: char) {
    c == ' ' || ('\t' <= c <= '\r') || c == '\U{85}' || c == '\U{A0}' || c == '\U{1680}'
    || ('\U{2000}' <= c <= '\U{200A}') || c == '\U{2028}' || c == '\U{2029}'
    || c == '\U{202F}' || c == '\U{205F}' || c == '\U{3000}'
  }

  /** Every character is white space (the empty string included). */
  predicate IsBlank(s: string) {
    forall i :: 0 <= i < |s| ==> IsWhiteSpace(s[i])
  }

  /** `string.IsNullOrWhiteSpace`. */
  predicate IsNullOrWhiteSpace(s: Option<string>) {
    s.None? || IsBlank(s.value)
  }

  /** The index of the first character at or after `i` that is not white space (or |s|). */
  function TrimStartIndex(s: string, i: nat): (k: nat)
    requires i <= |s|
    ensures i <= k <= |s|
    ensures forall m :: i <= m < k ==> IsWhiteSpace(s[m])
    ensures k < |s| ==> !IsWhiteSpace(s[k])
    decreases |s| - i
  {
    if i < |s| && IsWhiteSpace(s[i]) then TrimStartIndex(s, i + 1) else i
  }

  /** One past the last character before `j`, and not before `lo`, that is not white space (or `lo`). */
  function TrimEndIndex(s: string, lo: nat, j: nat): (k: nat)
    requires lo <= j <= |s|
    ensures lo <= k <= j
    ensures forall m :: k <= m < j ==> IsWhiteSpace(s[m])
    ensures k > lo ==> !IsWhiteSpace(s[k - 1])
    decreases j
  {
    if lo < j && IsWhiteSpace(s[j - 1]) then TrimEndIndex(s, lo, j - 1) else j
  }

  /** `string.Trim()`: drops leading and trailing white space and nothing else. */
  function Trim(s: string): string {
    var i := TrimStartIndex(s, 0);
    s[i..TrimEndIndex(s, i, |s|)]
  }

  /** The result of `Trim` neither starts nor ends with white space. */
  lemma TrimmedEnds(s: string)
    ensures var r := Trim(s); r == [] || (!IsWhiteSpace(r[0]) && !IsWhiteSpace(r[|r| - 1]))
  {
  }

  /** Trimming a blank string leaves nothing; trimming a non-blank one leaves something. */
  lemma TrimBlank(s: string)
    ensures Trim(s) == [] <==> IsBlank(s)
  {
    var i := TrimStartIndex(s, 0);
    var j := TrimEndIndex(s, i, |s|);
    if i == j {
      assert forall m :: 0 <= m < |s| ==> IsWhiteSpace(s[m]);
    } else {
      assert !IsWhiteSpace(s[i]);
    }
  }

  /** Trimming a string that has no white space at either end changes nothing. */
  lemma TrimTrimmed(s: string)
    requires s == [] || (!IsWhiteSpace(s[0]) && !IsWhiteSpace(s[|s| - 1]))
    ensures Trim(s) == s
  {
    assert TrimStartIndex(s, 0) == 0;
    assert TrimEndIndex(s, 0, |s|) == |s|;
  }

  function ToLowerChar(c: char): char {
    if 'A' <= c <= 'Z' then (c as int + 32) as char else c
  }

  function ToUpperChar(c: char): char {
    if 'a' <= c <= 'z' then (c as int - 32) as char else c
  }

  /** `ToLowerInvariant` (ASCII letters only). */
  function ToLower(s: string): (r: string)
    ensures |r| == |s|
    ensures forall i :: 0 <= i < |s| ==> r[i] == ToLowerChar(s[i])
  {
    seq(|s|, i requires 0 <= i < |s| => ToLowerChar(s[i]))
  }

  /** `ToUpperInvariant` (ASCII letters only). */
  function ToUpper(s: string): (r: string)
    ensures |r| == |s|
    ensures forall i :: 0 <= i < |s| ==> r[i] == ToUpperChar(s[i])
  {
    seq(|s|, i requires 0 <= i < |s| => ToUpperChar(s[i]))
  }

  /** `char.IsLetterOrDigit`: exact on ASCII; any other non-white-space character is taken as a letter. */
  predicate IsLetterOrDigit(c: char) {
    ('a' <= c <= 'z') || ('A' <= c <= 'Z') || ('0' <= c <= '9') || (c >= '\U{80}' && !IsWhiteSpace(c))
  }

  /** `new string(s.Where(char.IsLetterOrDigit).ToArray())`. */
  function LettersAndDigits(s: string): (r: string)
    ensures |r| <= |s|
    ensures forall i :: 0 <= i < |r| ==> IsLetterOrDigit(r[i])
    ensures (forall i :: 0 <= i < |s| ==> IsLetterOrDigit(s[i])) ==> r == s
  {
    if s == [] then []
    else (if IsLetterOrDigit(s[0]) then [s[0]] else []) + LettersAndDigits(s[1..])
  }

  /** Filtering works piecewise: the letters and digits of `a + b` are those of `a`, then those of `b`. */
  lemma {:induction false} LettersAndDigitsAppend(a: string, b: string)
    ensures LettersAndDigits(a + b) == LettersAndDigits(a) + LettersAndDigits(b)
  {
    if a != [] {
      assert (a + b)[1..] == a[1..] + b;
      LettersAndDigitsAppend(a[1..], b);
    } else {
      assert a + b == b;
    }
  }

  /** A character that is neither letter nor digit (white space, punctuation) is dropped wherever it stands. */
  lemma LettersAndDigitsDrop(a: string, c: char, b: string)
    requires !IsLetterOrDigit(c)
    ensures LettersAndDigits(a + [c] + b) == LettersAndDigits(a + b)
  {
    assert [c][1..] == [];
    assert LettersAndDigits([c]) == [];
    calc {
      LettersAndDigits(a + [c] + b);
      { LettersAndDigitsAppend(a + [c], b); }
      LettersAndDigits(a + [c]) + LettersAndDigits(b);
      { LettersAndDigitsAppend(a, [c]); }
      LettersAndDigits(a) + LettersAndDigits(b);
      { LettersAndDigitsAppend(a, b); }
      LettersAndDigits(a + b);
    }
  }

  /** Lower-casing works piecewise. */
  lemma ToLowerAppend(a: string, b: string)
    ensures ToLower(a + b) == ToLower(a) + ToLower(b)
  {
  }

  /** Lower-casing keeps the letter-or-digit class of every character, so it commutes with the filter. */
  lemma {:induction false} LettersAndDigitsOfLower(s: string)
    ensures LettersAndDigits(ToLower(s)) == ToLower(LettersAndDigits(s))
  {
    if s != [] {
      assert ToLower(s)[1..] == ToLower(s[1..]);
      LettersAndDigitsOfLower(s[1..]);
      var head := if IsLetterOrDigit(s[0]) then [s[0]] else [];
      assert LettersAndDigits(ToLower(s)) == ToLower(head) + LettersAndDigits(ToLower(s[1..]));
      assert LettersAndDigits(s) == head + LettersAndDigits(s[1..]);
      ToLowerAppend(head, LettersAndDigits(s[1..]));
    }
  }


  /** `string.Equals(a, b, StringComparison.OrdinalIgnoreCase)` (ASCII case folding). */
  predicate EqualsIgnoreCase(a: string, b: string) {
    ToLower(a) == ToLower(b)
  }

  function DigitChar(d: nat): char
    requires d < 10
  {
    ('0' as int + d) as char
  }

  function NaturalString(n: nat): (r: string)
    ensures |r| > 0
    decreases n
  {
    if n < 10 then [DigitChar(n)] else NaturalString(n / 10) + [DigitChar(n % 10)]
  }

  /** `int.ToString()` as decimal digits with a leading '-' when negative. */
  function IntString(n: int): (r: string)
    ensures |r| > 0
  {
    if n < 0 then "-" + NaturalString(-n) else NaturalString(n)
  }
}
