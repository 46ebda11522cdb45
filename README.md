# Resume analyser core in Dafny

This project models the logic of the teacher-resume detector's desktop
application (`ResumeAnalyzerApp` in `interface2.py`). It covers three parts.

- **Text normaliser** (`preprocess_text`). A value that is not a string gives
  the empty text. A string goes through these steps in order:
  1. lowercase it;
  2. delete the 32 characters of Python's `string.punctuation`;
  3. delete the digits;
  4. collapse every whitespace run to one space, then strip;
  5. split it into tokens;
  6. drop every token that is in the stopword list;
  7. stem the surviving tokens;
  8. join the stems with single spaces.

  The stemmer is a parameter `string -> string`. The stopword list is a
  parameter `seq<string>`, and membership in it is exact equality.
- **Verdict rule** (`show_result`). The percentage maps to one of three
  conclusions:
  - above 70 is a teacher's resume;
  - above 30 up to 70 is possibly one;
  - anything else is not one.
- **Analysis step** (`analyze_resume`). Blank input is rejected before any
  other work. Otherwise the normalised text goes to the vectorizer as a
  one-element batch, the features go to the model, and entry `[0][1]` of the
  model's probability table, times 100, is the percentage shown. An exception
  along the way is reported. The vectorizer and the model are parameters that
  either return a value or fail.

Modules:

- `Wrappers`: `Option` and `Result`.
- `CharClasses` in `chars.dfy`: the punctuation set, digits, Python's
  whitespace set, and a per-character lowercase map.
- `Normalizer` in `normalizer.dfy`:
  - `Preprocess` is the specification function.
  - `CleanText`, `StemTokens` and `PreprocessText` are the step-by-step
    method, with the token loop. They are proved equal to the specification
    function.
  - The lemmas state what each step and the whole pipeline guarantee.
- `Verdict` in `verdict.dfy`: the conclusion and its message.
- `Analyzer` in `analyzer.dfy`: the outcome of pressing the button.

### What the code guarantees and what it does not

- The three conclusions are the three Russian messages the code shows
  (`Verdict.Message`).
- The cleaning steps are idempotent (`Normalizer.CleanedIdempotent`), but the
  whole normalisation is not, for a stemmer that changes words
  (`Normalizer.PreprocessNotIdempotent`).
- Tokens are filtered before stemming only, so a stem can be a stopword and
  appear in the output (`Normalizer.StemmedStopwordSurvives`).
- Non-blank text whose normalised form is empty is still sent to the
  vectorizer and scored.

## Model

| member | source | states |
|---|---|---|
| CharClasses.PunctuationRanges | interface2.py:162 | the range test is membership in the punctuation string, which has exactly 32 distinct characters |
| CharClasses.IsPunctuation | interface2.py:162 | membership in `string.punctuation`; `CharClasses.PunctuationRanges` proves the range test equal to membership in the 32-character string |
| CharClasses.IsDigit | interface2.py:163 | the characters `\d` deletes (ASCII digits in this model); `Normalizer.CleanedChars` proves none survive cleaning |
| CharClasses.IsWhitespace | interface2.py:164-167 | the characters `\s`, `str.strip()` and `str.split()` treat as whitespace; `Normalizer.CollapseShape`, `Normalizer.StripShape` and `Normalizer.SplitWords` state what the steps do with them |
| CharClasses.LowerChar | interface2.py:161 | the lowercase of a character is never upper case; a character that is not upper case is unchanged; punctuation, digit and whitespace status are preserved; `CharClasses.LowerLatin`, `CharClasses.LowerRussian` and `CharClasses.LowerOtherCapitals` fix which small letter each modelled capital becomes |
| CharClasses.LowerOtherCapitals | interface2.py:161 | the Latin-1 capitals À..Þ (except ×) become the letter 0x20 above them and the Cyrillic capitals Ѐ..Џ the letter 0x50 above them, e.g. À to à, Є to є, І to і |
| CharClasses.LatinCodes | interface2.py:161 | the Latin capital and small alphabets are the contiguous code points A..Z and a..z |
| CharClasses.LowerLatin | interface2.py:161 | each Latin capital becomes its own small letter |
| CharClasses.RussianCodes | interface2.py:161 | the Russian alphabets are А..Я and а..я, contiguous, followed by Ё and ё |
| CharClasses.LowerRussian | interface2.py:161-168 | each Russian capital becomes its own small letter and small letters stay, so a capitalised stopword matches the lowercase list |
| Normalizer.LowerShape | interface2.py:161 | lowercasing keeps the length and lowers each character in place, so each Latin or Russian capital becomes its own small letter; no upper-case letter remains and no other character changes |
| Normalizer.Lower | interface2.py:161 | `str.lower()` one character at a time; `Normalizer.LowerShape` carries its contract |
| Normalizer.RemoveChars | interface2.py:162-163 | deleting a character class never lengthens the text |
| Normalizer.RemoveCharsContents | interface2.py:162-163 | a character survives exactly when it is outside the deleted class, and each survivor keeps its number of occurrences |
| Normalizer.RemoveCharsFixed | interface2.py:162-163 | text with nothing to delete is unchanged |
| Normalizer.RemoveCharsAppend | interface2.py:162-163 | deleting from a concatenation is the concatenation of the deletions, so the survivors keep their order |
| Normalizer.RemoveCharsAll | interface2.py:162-163 | text made only of characters to delete is deleted entirely |
| Normalizer.RemoveCharsAround | interface2.py:162-164 | deleting a class from text framed by that class leaves exactly the middle's survivors |
| Normalizer.LeadingWhitespace | interface2.py:164 | the count is the length of the maximal whitespace prefix |
| Normalizer.TrailingWhitespace | interface2.py:164 | the count is the length of the maximal whitespace suffix |
| Normalizer.Strip | interface2.py:164 | `str.strip()`; `Normalizer.StripBlank`, `Normalizer.StripFixed`, `Normalizer.StripShape`, `Normalizer.StripKeepsText` and `Normalizer.SplitStrip` carry its contract |
| Normalizer.StripBlank | interface2.py:142 | stripping gives the empty text exactly when the text is all whitespace |
| Normalizer.StripFixed | interface2.py:164 | stripping leaves text without outer whitespace unchanged |
| Normalizer.StripShape | interface2.py:164 | stripped text has no whitespace at either end, adds no character, and keeps plain spacing and the absence of whitespace pairs |
| Normalizer.StripKeepsText | interface2.py:164 | stripping keeps every non-whitespace character, in order |
| Normalizer.AllWhitespace | interface2.py:142 | text whose `strip()` is empty; `Normalizer.StripBlank` proves the two equal |
| Normalizer.CollapseShape | interface2.py:164 | after collapsing, every whitespace character is a plain space with no whitespace neighbour; the text is empty only if the input was; its first character is the input's (or a space); only the space can be new |
| Normalizer.CollapseWhitespace | interface2.py:164 | `re.sub(r'\s+', ' ', s)`; `Normalizer.CollapseShape`, `Normalizer.CollapseKeepsText`, `Normalizer.CollapseFixed` and `Normalizer.SplitCollapse` carry its contract |
| Normalizer.CollapseKeepsText | interface2.py:164 | collapsing whitespace keeps every non-whitespace character, in order |
| Normalizer.CollapseFixed | interface2.py:164 | text that already has only single plain spaces is unchanged by collapsing |
| Normalizer.CleanedSpacing | interface2.py:161-164 | cleaned text has no leading or trailing whitespace, only plain spaces and no two whitespace characters in a row |
| Normalizer.Cleaned | interface2.py:161-164 | the four reassignments in order; the `Normalizer.Cleaned*` lemmas carry its contract |
| Normalizer.CleanedChars | interface2.py:161-164 | cleaned text contains no punctuation, no digit and no upper-case letter |
| Normalizer.CleanedIdempotent | interface2.py:161-164 | cleaning cleaned text changes nothing |
| Normalizer.CleanedIsJoinedTokens | interface2.py:164-167 | the cleaned text is its own tokens joined by single spaces |
| Normalizer.CleanedKeepsText | interface2.py:161-164 | cleaning keeps every lowered character that is not punctuation or a digit, in order; only whitespace differs |
| Normalizer.CleanedTokens | interface2.py:161-167 | the tokens of the cleaned text are the tokens of the lowered text once punctuation and digits are deleted |
| Normalizer.TakeWord | interface2.py:167 | the first token is a whitespace-free prefix that ends at whitespace or at the end of the text |
| Normalizer.SplitWords | interface2.py:167 | every token is non-empty, contains no whitespace, and is made of characters of the text |
| Normalizer.TakeWordOfWord | interface2.py:167 | a whitespace-free word followed by whitespace or nothing is read back whole |
| Normalizer.Split | interface2.py:167 | `str.split()`; `Normalizer.SplitWords`, `Normalizer.SplitJoin`, `Normalizer.JoinSplit` and the `Normalizer.Split*` lemmas carry its contract |
| Normalizer.SplitCons | interface2.py:167 | a leading non-whitespace character starts a token of its own before whitespace and is glued to the next token otherwise |
| Normalizer.SplitBlank | interface2.py:167 | whitespace-only text has no tokens |
| Normalizer.SplitLeading | interface2.py:167 | leading whitespace does not change the tokens |
| Normalizer.SplitTrailing | interface2.py:167 | trailing whitespace does not change the tokens |
| Normalizer.SplitCollapse | interface2.py:164-167 | collapsing whitespace runs does not change the tokens |
| Normalizer.SplitStrip | interface2.py:164-167 | stripping does not change the tokens |
| Normalizer.Join | interface2.py:172 | `" ".join(words)`; `Normalizer.SplitJoin`, `Normalizer.JoinSplit` and `Normalizer.JoinStart` carry its contract |
| Normalizer.JoinStart | interface2.py:172 | a join of words is non-empty and starts with the first word's first character |
| Normalizer.SplitJoin | interface2.py:167-172 | splitting a join of words gives back the same words |
| Normalizer.JoinSplit | interface2.py:167-172 | text with single spaces between words is the join of its own split |
| Normalizer.SingleSpacedTail | interface2.py:164 | what follows a space of single-spaced text is single-spaced |
| Normalizer.SplitWordSpace | interface2.py:167-172 | a word, one space and a single-spaced rest split into the word and the rest's tokens, and join back to the same text |
| Normalizer.Kept | interface2.py:168 | filtering never lengthens the token list |
| Normalizer.KeptContents | interface2.py:168 | a token survives exactly when it is not a stopword; each survivor keeps its number of occurrences, so nothing is duplicated or invented |
| Normalizer.KeptAppend | interface2.py:166-170 | filtering a concatenation is the concatenation of the filtered parts, so relative order is kept |
| Normalizer.StemAll | interface2.py:169 | one stem per surviving token |
| Normalizer.StemAllAppend | interface2.py:169-170 | appending a token appends its stem |
| Normalizer.CleanText | interface2.py:161-164 | the text after the four reassignments is the cleaned text |
| Normalizer.StemTokens | interface2.py:166-170 | the loop hands the stemmer exactly the non-stopword tokens, in order, and `tokens` is their stems |
| Normalizer.PreprocessText | interface2.py:157-172 | the method returns the specified normalised text, with "" for a non-string; no stopword is ever stemmed |
| Normalizer.Preprocess | interface2.py:157-172 | "" for a non-string, otherwise join of the stems of the non-stopword tokens of the cleaned text; `Normalizer.PreprocessText` and the output lemmas carry its contract |
| Normalizer.NoiseOnlyGivesEmpty | interface2.py:161-172 | text made only of punctuation, digits and whitespace cleans to "" and normalises to "" |
| Normalizer.AllStopwordsGivesEmpty | interface2.py:166-172 | text whose every token is a stopword normalises to "" |
| Normalizer.OutputPieces | interface2.py:166-172 | there are never more stems than cleaned tokens; if the stemmer maps words to words, splitting the output gives exactly the stems, in order |
| Normalizer.ConcatNoPunctuationOrDigit | interface2.py:172 | joining two clean pieces with a space gives clean text |
| Normalizer.JoinNoPunctuationOrDigit | interface2.py:172 | joining clean words gives clean text |
| Normalizer.OutputClean | interface2.py:161-172 | if the stemmer adds no punctuation or digit to a clean word, the output has none |
| Normalizer.SingleLetterTokens | interface2.py:161-167 | a lowercase letter cleans to itself and is one token |
| Normalizer.PreprocessNotIdempotent | interface2.py:166-172 | with a stemmer that appends a letter, normalising the output of a normalisation changes it again |
| Normalizer.StemmedStopwordSurvives | interface2.py:168-170 | a stemmer can produce a stopword, which then appears in the output |
| Verdict.Conclude | interface2.py:185-190 | teacher exactly when the percentage is above 70; possibly exactly when it is above 30 and at most 70; not exactly when it is at most 30 |
| Verdict.Message | interface2.py:186-190 | the three messages of the chain; `Verdict.MessageDistinct` proves them distinct |
| Verdict.ConcludeMonotone | interface2.py:185-190 | a higher percentage never gives a weaker conclusion |
| Verdict.ConcludeBoundaries | interface2.py:185-190 | 70 is possibly and 70.01 is teacher; 30 is not and 30.01 is possibly |
| Verdict.MessageDistinct | interface2.py:186-190 | different conclusions show different messages |
| Analyzer.PositiveProbability | interface2.py:150 | entry `[0][1]` is read exactly when the table has row 0 with at least two entries; otherwise the read fails with an index error |
| Analyzer.AnalyzeResume | interface2.py:141-155 | the outcome is the empty-input error exactly when the text is blank; a shown percentage carries its conclusion |
| Analyzer.ScoringSteps | interface2.py:146-155 | for non-blank text, a vectorizer or model failure is reported with its cause, a failed `[0][1]` read with an index error, and otherwise the shown percentage is 100 times `[0][1]` of the model's table for the one-element batch of preprocessed text, with its conclusion |
| Analyzer.BlankNeverScored | interface2.py:142-144 | blank text gives the empty-input error whatever the stopwords, stemmer, vectorizer and model are |
| Analyzer.OnlyPreprocessedTextIsVectorized | interface2.py:148-149 | two vectorizers that agree on the one-element batch of normalised text give the same outcome |
| Analyzer.SoundModelTable | interface2.py:150 | a model that returns well-formed probability tables yields a positive-class probability in [0, 1] |
| Analyzer.PercentInRange | interface2.py:142-153 | with such a model, a shown percentage is in [0, 100]; non-blank text whose vectorizing and scoring succeed is always shown |
| Analyzer.StubModelScenario | interface2.py:141-153 | an end-to-end example: a non-blank Russian resume, scored 0.85 by a stub model, is shown as 85 percent, a teacher's resume |

## Left out

- The Tkinter user interface is not modelled. This covers the screens, the
  style settings, the context menu, the error dialogs and exiting. An error
  dialog becomes an `Outcome` value.
- Loading the model, the vectorizer and the NLTK resources (interface2.py:31-44)
  is not modelled. It is file I/O in foreign libraries.
- The Snowball stemmer, the vectorizer and the model are uninterpreted
  parameters. Their internals are foreign code.
- The stemmer is taken never to raise. In the code an exception from
  `stemmer.stem` inside the `try` block would also be reported; in the model
  `stem` is a total function.
- The vectorizer and the model fail with a `ScoringError` cause instead of a
  Python exception object. The message text of the exception is not modelled.
- The text box always yields a string. The non-string guard of
  `preprocess_text` is modelled as `None` in `Preprocess` and `PreprocessText`.
- CharClasses.LowerChar: covers only the ASCII, Latin-1 and basic Cyrillic
  upper-case letters. It never changes the length of the text. Python's
  `str.lower` covers all of Unicode and changes the length for a few code
  points.
- CharClasses.IsDigit: matches the ASCII digits only. Python's `\d` also
  matches the other Unicode decimal digits.
- Probabilities and percentages are `real`. Floating-point rounding of `* 100`
  is not modelled.
- The `:.1f` formatting of the shown percentage is not modelled.
- The uptime and clock display is not modelled.
- Normalizer.OutputClean: proves "no punctuation or digit in the output" only
  for a stemmer that adds none. An arbitrary stemmer gives no such guarantee.
- Normalizer.StemTokens: proves "no stopword" only for the tokens before
  stemming. After stemming the code gives no such guarantee
  (`Normalizer.StemmedStopwordSurvives`).
