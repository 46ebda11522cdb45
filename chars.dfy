/**
 * Character classes used by the resume text normaliser: the ASCII punctuation
 * set, decimal digits, the whitespace set of Python strings, and a
 * per-character lowercase map for the Latin and Cyrillic alphabets.
 */
module CharClasses {

  /** The 32 characters of Python's `string.punctuation`, in its order. */
  const PUNCTUATION: string := "!\"#$%&'()*+,-./:;<=>?@[\\]^_`{|}~"

  /** Membership in the punctuation set: the printable ASCII characters that
      are neither the space, a letter nor a digit. */
  predicate IsPunctuation(c: char) {
    ('!' <= c <= '/') || (':' <= c <= '@') || ('[' <= c <= '`') || ('{' <= c <= '~')
  }

  /** The range test above picks out exactly the 32 characters of the
      punctuation string, which has no repeated member. */
  lemma PunctuationRanges(c: char)
    ensures IsPunctuation(c) <==> c in PUNCTUATION
    ensures |PUNCTUATION| == 32
    ensures forall i, j :: 0 <= i < j < |PUNCTUATION| ==> PUNCTUATION[i] != PUNCTUATION[j]
  {
    assert forall i :: 0 <= i < 15 ==> PUNCTUATION[i] as int == 0x21 + i;
    assert forall i :: 15 <= i < 22 ==> PUNCTUATION[i] as int == 0x3A + (i - 15);
    assert forall i :: 22 <= i < 28 ==> PUNCTUATION[i] as int == 0x5B + (i - 22);
    assert forall i :: 28 <= i < 32 ==> PUNCTUATION[i] as int == 0x7B + (i - 28);
    if IsPunctuation(c) {
      var i := if c <= '/' then c as int - 0x21
        else if c <= '@' then c as int - 0x3A + 15
        else if c <= '`' then c as int - 0x5B + 22
        else c as int - 0x7B + 28;
      assert PUNCTUATION[i] == c;
    }
  }

  /** A decimal digit, as `\d` matches it (ASCII digits only in this model). */
  predicate IsDigit(c: char) {
    '0' <= c <= '9'
  }

  /** The characters Python treats as whitespace in `\s`, `str.split()` and `str.strip()`. */
  predicate IsWhitespace(c: char) {
    ('\t' <= c <= '\r') || ('\U{1C}' <= c <= '\U{1F}') || c == ' '
    || c == '\U{85}' || c == '\U{A0}' || c == '\U{1680}'
    || ('\U{2000}' <= c <= '\U{200A}') || c == '\U{2028}' || c == '\U{2029}'
    || c == '\U{202F}' || c == '\U{205F}' || c == '\U{3000}'
  }

  /** Upper-case letters of the Latin (ASCII and Latin-1) and Cyrillic alphabets. */
  predicate IsUpper(c: char) {
    ('A' <= c <= 'Z') || ('\U{C0}' <= c <= '\U{DE}' && c != '\U{D7}') || ('\U{400}' <= c <= '\U{42F}')
  }

  /** The lowercase of one character: upper-case letters map to their small
      letter, every other character is left alone. */
  function LowerChar(c: char): (l: char)
    ensures !IsUpper(l)
    ensures !IsUpper(c) ==> l == c
    ensures IsPunctuation(l) <==> IsPunctuation(c)
    ensures IsDigit(l) <==> IsDigit(c)
    ensures IsWhitespace(l) <==> IsWhitespace(c)
  {
    if ('A' <= c <= 'Z') || ('\U{C0}' <= c <= '\U{DE}' && c != '\U{D7}') || ('\U{410}' <= c <= '\U{42F}') then
      (c as int + 0x20) as char
    else if '\U{400}' <= c <= '\U{40F}' then
      (c as int + 0x50) as char
    else
      c
  }

  /** The capital and small letters of the Latin alphabet, in matching order. */
  const UPPER_EN: string := "ABCDEFGHIJKLMNOPQRSTUVWXYZ"
  const LOWER_EN: string := "abcdefghijklmnopqrstuvwxyz"

  /** The capital and small letters of the Russian alphabet, in matching order. */
  const UPPER_RU: string := "АБВГДЕЖЗИЙКЛМНОПРСТУФХЦЧШЩЪЫЬЭЮЯЁ"
  const LOWER_RU: string := "абвгдежзийклмнопрстуфхцчшщъыьэюяё"

  /** The code points of the Latin letters: A..Z and a..z are contiguous. */
  lemma LatinCodes()
    ensures |UPPER_EN| == |LOWER_EN| == 26
    ensures forall i :: 0 <= i < 26 ==> UPPER_EN[i] as int == 0x41 + i
    ensures forall i :: 0 <= i < 26 ==> LOWER_EN[i] as int == 0x61 + i
  {
  }

  /** Each capital of the Latin alphabet becomes its own small letter. */
  lemma LowerLatin()
    ensures |UPPER_EN| == |LOWER_EN| == 26
    ensures forall i :: 0 <= i < |UPPER_EN| ==> LowerChar(UPPER_EN[i]) == LOWER_EN[i]
  {
    LatinCodes();
    forall i | 0 <= i < |UPPER_EN| ensures LowerChar(UPPER_EN[i]) == LOWER_EN[i] {
    }
  }

  /** The code points of the Russian letters: А..Я and а..я are contiguous,
      Ё and ё come last. */
  lemma RussianCodes()
    ensures |UPPER_RU| == |LOWER_RU| == 33
    ensures forall i :: 0 <= i < 32 ==> UPPER_RU[i] as int == 0x410 + i
    ensures forall i :: 0 <= i < 32 ==> LOWER_RU[i] as int == 0x430 + i
    ensures UPPER_RU[32] == '\U{401}' && LOWER_RU[32] == '\U{451}'
  {
  }

  /** Each capital of the Russian alphabet becomes its own small letter, so
      that a capitalised stopword such as "И" matches "и"; small letters stay. */
  lemma LowerRussian()
    ensures |UPPER_RU| == |LOWER_RU| == 33
    ensures forall i :: 0 <= i < |UPPER_RU| ==> LowerChar(UPPER_RU[i]) == LOWER_RU[i]
    ensures forall i :: 0 <= i < |LOWER_RU| ==> LowerChar(LOWER_RU[i]) == LOWER_RU[i]
  {
    RussianCodes();
    forall i | 0 <= i < |UPPER_RU| ensures LowerChar(UPPER_RU[i]) == LOWER_RU[i] && LowerChar(LOWER_RU[i]) == LOWER_RU[i] {
    }
  }

  /** The remaining capitals follow their case pairs in Unicode: the Latin-1
      capitals À..Þ (except the sign ×) and the Cyrillic capitals Ѐ..Џ become
      the small letters 0x20 and 0x50 code points above them. */
  lemma LowerOtherCapitals(c: char)
    ensures ('\U{C0}' <= c <= '\U{DE}' && c != '\U{D7}') ==> LowerChar(c) as int == c as int + 0x20
    ensures '\U{400}' <= c <= '\U{40F}' ==> LowerChar(c) as int == c as int + 0x50
    ensures LowerChar('\U{C0}') == '\U{E0}' && LowerChar('\U{404}') == '\U{454}' && LowerChar('\U{406}') == '\U{456}'
  {
  }
}
