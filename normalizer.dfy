/**
 * The resume text normaliser (`ResumeAnalyzerApp.preprocess_text`).
 *
 * Each cleaning step is a function with a contract that says what the step
 * leaves behind; `Preprocess` composes them in the source's fixed order, and
 * `PreprocessText` is the step-by-step method with the token loop, proved
 * equal to `Preprocess`. The stemmer and the stopword list are parameters.
 */
module Normalizer {
  import opened Wrappers
  import opened CharClasses

  // ---------------------------------------------------------------------------
  // Spacing predicates
  // ---------------------------------------------------------------------------

  /** Every whitespace character of `s` is the plain space. */
  predicate PlainSpaces(s: string) {
    forall i :: 0 <= i < |s| && IsWhitespace(s[i]) ==> s[i] == ' '
  }

  /** No two neighbouring characters of `s` are both whitespace. */
  predicate NoDoubleSpace(s: string) {
    forall i :: 0 <= i < |s| - 1 ==> !(IsWhitespace(s[i]) && IsWhitespace(s[i + 1]))
  }

  /** `s` neither starts nor ends with whitespace. */
  predicate Trimmed(s: string) {
    s == [] || (!IsWhitespace(s[0]) && !IsWhitespace(s[|s| - 1]))
  }

  /** Words separated by exactly one plain space, nothing at either end. */
  predicate SingleSpaced(s: string) {
    Trimmed(s) && PlainSpaces(s) && NoDoubleSpace(s)
  }

  /** Every character of `s` is whitespace, so `s.strip()` is empty. */
  predicate AllWhitespace(s: string) {
    forall i :: 0 <= i < |s| ==> IsWhitespace(s[i])
  }

  /** A token as `str.split()` yields it: non-empty, no whitespace inside. */
  predicate IsWord(w: string) {
    w != [] && forall i :: 0 <= i < |w| ==> !IsWhitespace(w[i])
  }

  // ---------------------------------------------------------------------------
  // Cleaning steps
  // ---------------------------------------------------------------------------

  /** `str.lower()`, one character at a time. */
  function Lower(s: string): string {
    seq(|s|, i requires 0 <= i < |s| => LowerChar(s[i]))
  }

  /** Lowercasing keeps the length, lowers each character in place (so each
      capital becomes its own small letter, by `CharClasses.LowerLatin`,
      `CharClasses.LowerRussian` and `CharClasses.LowerOtherCapitals`), leaves no
      upper-case letter and changes no other character. */
  lemma LowerShape(s: string)
    ensures |Lower(s)| == |s|
    ensures forall i :: 0 <= i < |s| ==> Lower(s)[i] == LowerChar(s[i])
    ensures forall i :: 0 <= i < |s| ==> !IsUpper(Lower(s)[i])
    ensures forall i :: 0 <= i < |s| && !IsUpper(s[i]) ==> Lower(s)[i] == s[i]
  {
  }

  /** Deletes every character of class `drop` and keeps the others in order;
      models `re.sub('[...]', '', s)` and `re.sub(r'\d+', '', s)`. */
  function RemoveChars(s: string, drop: char -> bool): (r: string)
    ensures |r| <= |s|
  {
    if s == [] then [] else (if drop(s[0]) then [] else [s[0]]) + RemoveChars(s[1..], drop)
  }

  /** Exactly the characters outside class `drop` survive, each as often as
      before. */
  lemma {:induction false} RemoveCharsContents(s: string, drop: char -> bool)
    ensures forall c :: c in RemoveChars(s, drop) <==> c in s && !drop(c)
    ensures forall c :: multiset(RemoveChars(s, drop))[c] == if drop(c) then 0 else multiset(s)[c]
  {
    if s != [] {
      RemoveCharsContents(s[1..], drop);
      assert s == [s[0]] + s[1..];
    }
  }

  /** Text with nothing to delete is left as it is. */
  lemma {:induction false} RemoveCharsFixed(s: string, drop: char -> bool)
    requires forall i :: 0 <= i < |s| ==> !drop(s[i])
    ensures RemoveChars(s, drop) == s
  {
    if s != [] {
      RemoveCharsFixed(s[1..], drop);
      assert s == [s[0]] + s[1..];
    }
  }

  /** The number of whitespace characters `s` starts with. */
  function LeadingWhitespace(s: string): (n: nat)
    ensures n <= |s|
    ensures forall i :: 0 <= i < n ==> IsWhitespace(s[i])
    ensures n < |s| ==> !IsWhitespace(s[n])
  {
    if s != [] && IsWhitespace(s[0]) then
      var m := LeadingWhitespace(s[1..]);
      assert forall i :: 1 <= i < 1 + m ==> s[i] == s[1..][i - 1];
      1 + m
    else 0
  }

  /** The number of whitespace characters `s` ends with. */
  function TrailingWhitespace(s: string): (n: nat)
    ensures n <= |s|
    ensures forall i :: |s| - n <= i < |s| ==> IsWhitespace(s[i])
    ensures n < |s| ==> !IsWhitespace(s[|s| - 1 - n])
  {
    if s != [] && IsWhitespace(s[|s| - 1]) then
      var m := TrailingWhitespace(s[..|s| - 1]);
      assert forall i :: |s| - 1 - m <= i < |s| - 1 ==> s[i] == s[..|s| - 1][i];
      1 + m
    else 0
  }

  /** `str.strip()`: the text between the leading and the trailing whitespace. */
  function Strip(s: string): string {
    var a := LeadingWhitespace(s);
    if a == |s| then []
    else
      var b := |s| - TrailingWhitespace(s);
      assert a < b;
      s[a..b]
  }

  /** Stripping gives "" exactly for whitespace-only text. */
  lemma StripBlank(s: string)
    ensures Strip(s) == [] <==> AllWhitespace(s)
  {
  }

  /** Stripping leaves trimmed text alone. */
  lemma StripFixed(s: string)
    requires Trimmed(s)
    ensures Strip(s) == s
  {
  }

  /** Stripping leaves no whitespace at either end, keeps the spacing
      properties of its input and adds no character. */
  lemma StripShape(s: string)
    ensures Trimmed(Strip(s))
    ensures forall c :: c in Strip(s) ==> c in s
    ensures PlainSpaces(s) ==> PlainSpaces(Strip(s))
    ensures NoDoubleSpace(s) ==> NoDoubleSpace(Strip(s))
  {
  }

  /** `re.sub(r'\s+', ' ', s)`: every maximal whitespace run becomes one space
      (all but the last character of a run are dropped, the last is replaced). */
  function CollapseWhitespace(s: string): string {
    if s == [] then []
    else if IsWhitespace(s[0]) && |s| > 1 && IsWhitespace(s[1]) then CollapseWhitespace(s[1..])
    else [if IsWhitespace(s[0]) then ' ' else s[0]] + CollapseWhitespace(s[1..])
  }

  /** After collapsing, every whitespace character is a plain space and none
      has a whitespace neighbour; the first character survives (as a space if
      it was whitespace) and the only character that may be new is the space. */
  lemma {:induction false} CollapseShape(s: string)
    ensures PlainSpaces(CollapseWhitespace(s)) && NoDoubleSpace(CollapseWhitespace(s))
    ensures CollapseWhitespace(s) == [] <==> s == []
    ensures s != [] ==> CollapseWhitespace(s)[0] == if IsWhitespace(s[0]) then ' ' else s[0]
    ensures forall c :: c in CollapseWhitespace(s) ==> c in s || c == ' '
  {
    if s != [] {
      CollapseShape(s[1..]);
      var r := CollapseWhitespace(s);
      if !(IsWhitespace(s[0]) && |s| > 1 && IsWhitespace(s[1])) {
        var rest := CollapseWhitespace(s[1..]);
        assert forall i :: 1 <= i < |rest| + 1 ==> r[i] == rest[i - 1];
      }
      assert forall c :: c in s[1..] ==> c in s;
    }
  }

  /** The cleaning steps in the source's order: lowercase, delete punctuation,
      delete digits, collapse whitespace runs, strip. */
  function Cleaned(text: string): string {
    var lowered := Lower(text);
    var noPunctuation := RemoveChars(lowered, IsPunctuation);
    var noDigits := RemoveChars(noPunctuation, IsDigit);
    Strip(CollapseWhitespace(noDigits))
  }

  // ---------------------------------------------------------------------------
  // Tokens
  // ---------------------------------------------------------------------------

  /** The longest whitespace-free prefix of `s`. */
  function TakeWord(s: string): (w: string)
    ensures |w| <= |s| && w == s[..|w|]
    ensures forall i :: 0 <= i < |w| ==> !IsWhitespace(w[i])
    ensures |w| == |s| || IsWhitespace(s[|w|])
  {
    if s == [] || IsWhitespace(s[0]) then [] else [s[0]] + TakeWord(s[1..])
  }

  /** `str.split()` with no separator: the maximal whitespace-free runs, in order. */
  function Split(s: string): (words: seq<string>)
    decreases |s|
  {
    if s == [] then []
    else if IsWhitespace(s[0]) then Split(s[1..])
    else
      var w := TakeWord(s);
      assert w != [];
      [w] + Split(s[|w|..])
  }

  /** Every token of a split is a non-empty, whitespace-free run of characters
      of the text. */
  lemma {:induction false} SplitWords(s: string)
    ensures forall k :: 0 <= k < |Split(s)| ==> IsWord(Split(s)[k])
    ensures forall k, c :: 0 <= k < |Split(s)| && c in Split(s)[k] ==> c in s
    decreases |s|
  {
    if s != [] {
      if IsWhitespace(s[0]) {
        SplitWords(s[1..]);
        assert forall c :: c in s[1..] ==> c in s;
      } else {
        var w := TakeWord(s);
        var rest := Split(s[|w|..]);
        SplitWords(s[|w|..]);
        assert forall c :: c in s[|w|..] ==> c in s;
        assert forall c :: c in w ==> c in s;
        assert Split(s) == [w] + rest;
        assert forall k :: 0 <= k < |rest| ==> ([w] + rest)[k + 1] == rest[k];
      }
    }
  }

  /** `" ".join(words)`. */
  function Join(words: seq<string>): string
    decreases |words|
  {
    if |words| == 0 then ""
    else if |words| == 1 then words[0]
    else words[0] + " " + Join(words[1..])
  }

  /** Cleaned text has words separated by exactly one plain space and
      nothing at either end. */
  lemma CleanedSpacing(text: string)
    ensures SingleSpaced(Cleaned(text))
  {
    var noDigits := RemoveChars(RemoveChars(Lower(text), IsPunctuation), IsDigit);
    CollapseShape(noDigits);
    StripShape(CollapseWhitespace(noDigits));
  }

  /** Cleaned text holds no punctuation, no digit and no upper-case letter. */
  lemma CleanedChars(text: string)
    ensures forall c :: c in Cleaned(text) ==> !IsPunctuation(c) && !IsDigit(c) && !IsUpper(c)
  {
    var lowered := Lower(text);
    var noPunctuation := RemoveChars(lowered, IsPunctuation);
    var noDigits := RemoveChars(noPunctuation, IsDigit);
    var collapsed := CollapseWhitespace(noDigits);
    forall c | c in Cleaned(text) ensures !IsPunctuation(c) && !IsDigit(c) && !IsUpper(c) {
      StripShape(collapsed);
      CollapseShape(noDigits);
      if c != ' ' {
        assert c in noDigits;
        RemoveCharsContents(noPunctuation, IsDigit);
        RemoveCharsContents(lowered, IsPunctuation);
        assert c in lowered;
        LowerShape(text);
      }
    }
  }

  /** The tokens that are not in the stopword list, in their original order. */
  function Kept(words: seq<string>, stopwords: seq<string>): (r: seq<string>)
    ensures |r| <= |words|
  {
    if words == [] then []
    else (if words[0] in stopwords then [] else [words[0]]) + Kept(words[1..], stopwords)
  }

  /** The stemmer applied to every token, in order. */
  function StemAll(words: seq<string>, stem: string -> string): (r: seq<string>)
    ensures |r| == |words|
  {
    seq(|words|, i requires 0 <= i < |words| => stem(words[i]))
  }

  // ---------------------------------------------------------------------------
  // The pipeline
  // ---------------------------------------------------------------------------

  /** `preprocess_text`: a value that is not a string gives the empty text;
      a string is cleaned, split, filtered, stemmed and joined. */
  function Preprocess(text: Option<string>, stopwords: seq<string>, stem: string -> string): string {
    match text
    case None => ""
    case Some(t) => Join(StemAll(Kept(Split(Cleaned(t)), stopwords), stem))
  }

  /** The cleaning half of `preprocess_text`: the text is reassigned by each
      step in turn. */
  method CleanText(text: string) returns (s: string)
    ensures s == Cleaned(text)
  {
    s := text;
    s := Lower(s);
    s := RemoveChars(s, IsPunctuation);
    s := RemoveChars(s, IsDigit);
    s := Strip(CollapseWhitespace(s));
  }

  /** The token loop of `preprocess_text`: each token that is not in the
      stopword list is stemmed and appended to `tokens`. `stemmed` records, in
      order, every token handed to the stemmer. */
  method StemTokens(words: seq<string>, stopwords: seq<string>, stem: string -> string)
    returns (tokens: seq<string>, ghost stemmed: seq<string>)
    ensures tokens == StemAll(Kept(words, stopwords), stem)
    ensures stemmed == Kept(words, stopwords)
    ensures forall t :: t in stemmed ==> t in words && t !in stopwords
  {
    tokens := [];
    stemmed := [];
    for i := 0 to |words|
      invariant stemmed == Kept(words[..i], stopwords)
      invariant tokens == StemAll(stemmed, stem)
    {
      assert words[..i + 1] == words[..i] + [words[i]];
      KeptAppend(words[..i], [words[i]], stopwords);
      assert [words[i]][1..] == [];
      var token := words[i];
      if token !in stopwords {
        StemAllAppend(stemmed, token, stem);
        stemmed := stemmed + [token];
        token := stem(token);
        tokens := tokens + [token];
      }
    }
    assert words[..|words|] == words;
    KeptContents(words, stopwords);
  }

  /** `preprocess_text`: a value that is not a string gives ""; otherwise the
      text is cleaned, split, run through the token loop and joined by spaces.
      No stopword ever reaches the stemmer. */
  method PreprocessText(text: Option<string>, stopwords: seq<string>, stem: string -> string)
    returns (result: string, ghost stemmed: seq<string>)
    ensures result == Preprocess(text, stopwords, stem)
    ensures text.Some? ==> stemmed == Kept(Split(Cleaned(text.value)), stopwords)
    ensures forall t :: t in stemmed ==> t !in stopwords
  {
    if text.None? {
      return "", [];
    }
    var s := CleanText(text.value);
    var words := Split(s);
    var tokens;
    tokens, stemmed := StemTokens(words, stopwords, stem);
    result := Join(tokens);
  }

  // ---------------------------------------------------------------------------
  // Lemmas
  // ---------------------------------------------------------------------------

  /** Filtering commutes with concatenation: relative order is preserved. */
  lemma {:induction false} KeptAppend(a: seq<string>, b: seq<string>, stopwords: seq<string>)
    ensures Kept(a + b, stopwords) == Kept(a, stopwords) + Kept(b, stopwords)
  {
    if a == [] {
      assert a + b == b;
    } else {
      assert (a + b)[0] == a[0];
      assert (a + b)[1..] == a[1..] + b;
      KeptAppend(a[1..], b, stopwords);
    }
  }

  /** Exactly the non-stopword tokens survive, each as often as in the input:
      nothing is lost, duplicated or invented. */
  lemma {:induction false} KeptContents(words: seq<string>, stopwords: seq<string>)
    ensures forall w :: w in Kept(words, stopwords) <==> w in words && w !in stopwords
    ensures forall w :: multiset(Kept(words, stopwords))[w] == if w in stopwords then 0 else multiset(words)[w]
  {
    if words != [] {
      KeptContents(words[1..], stopwords);
      assert words == [words[0]] + words[1..];
    }
  }

  /** Stemming a list with one more token appends that token's stem. */
  lemma StemAllAppend(words: seq<string>, w: string, stem: string -> string)
    ensures StemAll(words + [w], stem) == StemAll(words, stem) + [stem(w)]
  {
  }

  /** A whitespace-free word followed by whitespace (or nothing) is read back whole. */
  lemma {:induction false} TakeWordOfWord(w: string, rest: string)
    requires forall i :: 0 <= i < |w| ==> !IsWhitespace(w[i])
    requires rest == [] || IsWhitespace(rest[0])
    ensures TakeWord(w + rest) == w
  {
    if w == [] {
      assert w + rest == rest;
    } else {
      assert (w + rest)[0] == w[0];
      assert (w + rest)[1..] == w[1..] + rest;
      TakeWordOfWord(w[1..], rest);
      assert w == [w[0]] + w[1..];
    }
  }

  /** A join of words starts with the first word's first character. */
  lemma {:induction false} JoinStart(words: seq<string>)
    requires |words| > 0 && forall k :: 0 <= k < |words| ==> IsWord(words[k])
    ensures IsWord(words[0]) && Join(words) != [] && Join(words)[0] == words[0][0]
  {
  }

  /** Splitting a join of words gives the words back. */
  lemma {:induction false} SplitJoin(words: seq<string>)
    requires forall k :: 0 <= k < |words| ==> IsWord(words[k])
    ensures Split(Join(words)) == words
    decreases |words|
  {
    if |words| == 1 {
      var w := words[0];
      TakeWordOfWord(w, []);
      assert w + [] == w;
      assert w[|w|..] == [];
    } else if |words| > 1 {
      var w, rest := words[0], words[1..];
      var j := Join(rest);
      SplitJoin(rest);
      JoinStart(rest);
      var s := w + " " + j;
      assert s == w + (" " + j);
      assert s[0] == w[0];
      TakeWordOfWord(w, " " + j);
      assert s[|w|..] == " " + j;
      assert (" " + j)[1..] == j;
      assert Split(" " + j) == Split(j);
    }
  }

  /** Single-spaced text is exactly its tokens joined by single spaces. */
  lemma {:induction false} JoinSplit(s: string)
    requires SingleSpaced(s)
    ensures Join(Split(s)) == s
    decreases |s|
  {
    if s != [] {
      var w := TakeWord(s);
      if |w| == |s| {
        assert w == s;
        assert s[|w|..] == [];
      } else {
        var rest := s[|w| + 1..];
        SingleSpacedTail(s, |w| + 1);
        JoinSplit(rest);
        SplitWordSpace(s, w, rest);
      }
    }
  }

  /** A word, one space and a rest that starts a word split into the word
      followed by the rest's tokens, and join back the same way. */
  lemma SplitWordSpace(s: string, w: string, rest: string)
    requires s != [] && !IsWhitespace(s[0])
    requires w == TakeWord(s) && |w| < |s| && s[|w|] == ' '
    requires rest == s[|w| + 1..] && rest != [] && !IsWhitespace(rest[0])
    requires Join(Split(rest)) == rest
    ensures Join(Split(s)) == s
  {
    assert s[|w|..] == [' '] + rest;
    assert ([' '] + rest)[1..] == rest;
    var tail := Split(rest);
    assert tail != [];
    assert Split(s) == [w] + tail;
    assert ([w] + tail)[1..] == tail;
    assert s == w + " " + rest;
  }

  /** What follows a space of single-spaced text is single-spaced. */
  lemma SingleSpacedTail(s: string, k: nat)
    requires SingleSpaced(s) && 0 < k < |s| && IsWhitespace(s[k - 1])
    ensures SingleSpaced(s[k..])
  {
    var t := s[k..];
    assert forall i :: 0 <= i < |t| ==> t[i] == s[k + i];
  }

  /** The cleaned text is its token list joined by single spaces. */
  lemma CleanedIsJoinedTokens(text: string)
    ensures Join(Split(Cleaned(text))) == Cleaned(text)
  {
    CleanedSpacing(text);
    JoinSplit(Cleaned(text));
  }

  /** Whitespace collapsing leaves text that is already free of whitespace runs alone. */
  lemma {:induction false} CollapseFixed(s: string)
    requires PlainSpaces(s) && NoDoubleSpace(s)
    ensures CollapseWhitespace(s) == s
    decreases |s|
  {
    if s != [] {
      var rest := s[1..];
      assert forall i :: 0 <= i < |rest| ==> rest[i] == s[i + 1];
      assert PlainSpaces(rest) && NoDoubleSpace(rest);
      if IsWhitespace(s[0]) {
        assert rest == [] || !IsWhitespace(rest[0]);
      }
      CollapseFixed(rest);
      assert s == [s[0]] + rest;
    }
  }

  /** Deletion distributes over concatenation: the order of survivors is kept. */
  lemma {:induction false} RemoveCharsAppend(a: string, b: string, drop: char -> bool)
    ensures RemoveChars(a + b, drop) == RemoveChars(a, drop) + RemoveChars(b, drop)
  {
    if a == [] {
      assert a + b == b;
    } else {
      assert (a + b)[0] == a[0];
      assert (a + b)[1..] == a[1..] + b;
      RemoveCharsAppend(a[1..], b, drop);
    }
  }

  /** Text made only of characters to delete is deleted entirely. */
  lemma {:induction false} RemoveCharsAll(s: string, drop: char -> bool)
    requires forall i :: 0 <= i < |s| ==> drop(s[i])
    ensures RemoveChars(s, drop) == []
  {
    if s != [] {
      RemoveCharsAll(s[1..], drop);
    }
  }

  /** Collapsing whitespace keeps every other character, in order. */
  lemma {:induction false} CollapseKeepsText(s: string)
    ensures RemoveChars(CollapseWhitespace(s), IsWhitespace) == RemoveChars(s, IsWhitespace)
  {
    if s != [] {
      CollapseKeepsText(s[1..]);
      if !(IsWhitespace(s[0]) && |s| > 1 && IsWhitespace(s[1])) {
        var x := if IsWhitespace(s[0]) then ' ' else s[0];
        var rest := CollapseWhitespace(s[1..]);
        assert ([x] + rest)[0] == x;
        assert ([x] + rest)[1..] == rest;
      }
    }
  }

  /** Deleting a class around text made only of that class leaves the middle's survivors. */
  lemma RemoveCharsAround(head: string, middle: string, tail: string, drop: char -> bool)
    requires forall i :: 0 <= i < |head| ==> drop(head[i])
    requires forall i :: 0 <= i < |tail| ==> drop(tail[i])
    ensures RemoveChars(head + middle + tail, drop) == RemoveChars(middle, drop)
  {
    assert head + middle + tail == head + (middle + tail);
    RemoveCharsAppend(head, middle + tail, drop);
    RemoveCharsAppend(middle, tail, drop);
    RemoveCharsAll(head, drop);
    RemoveCharsAll(tail, drop);
  }

  /** Stripping keeps every character other than whitespace, in order. */
  lemma StripKeepsText(s: string)
    ensures RemoveChars(Strip(s), IsWhitespace) == RemoveChars(s, IsWhitespace)
  {
    var a := LeadingWhitespace(s);
    if a == |s| {
      RemoveCharsAll(s, IsWhitespace);
    } else {
      var b := |s| - TrailingWhitespace(s);
      assert Strip(s) == s[a..b];
      assert s == s[..a] + s[a..b] + s[b..];
      RemoveCharsAround(s[..a], s[a..b], s[b..], IsWhitespace);
    }
  }

  /** Cleaning keeps every letter (lowered) that is not punctuation or a
      digit, in order: only whitespace differs from the text after deletion. */
  lemma CleanedKeepsText(text: string)
    ensures RemoveChars(Cleaned(text), IsWhitespace)
         == RemoveChars(RemoveChars(RemoveChars(Lower(text), IsPunctuation), IsDigit), IsWhitespace)
  {
    var noDigits := RemoveChars(RemoveChars(Lower(text), IsPunctuation), IsDigit);
    CollapseKeepsText(noDigits);
    StripKeepsText(CollapseWhitespace(noDigits));
  }

  /** Splitting a text that starts with a non-whitespace character `c`: `c`
      starts a new token when the rest starts with whitespace (or is empty),
      and is glued to the rest's first token otherwise. */
  lemma SplitCons(c: char, t: string)
    requires !IsWhitespace(c)
    ensures t == [] || IsWhitespace(t[0]) ==> Split([c] + t) == [[c]] + Split(t)
    ensures t != [] && !IsWhitespace(t[0]) ==>
      |Split(t)| > 0 && Split([c] + t) == [[c] + Split(t)[0]] + Split(t)[1..]
  {
    var s := [c] + t;
    assert s[0] == c && s[1..] == t;
    if t == [] || IsWhitespace(t[0]) {
      assert TakeWord(s) == [c] + TakeWord(t);
      assert s[1..] == t;
    } else {
      var w := TakeWord(t);
      assert TakeWord(s) == [c] + w;
      assert s[|[c] + w|..] == t[|w|..];
    }
  }

  /** Collapsing whitespace does not change the tokens. */
  lemma {:induction false} SplitCollapse(s: string)
    ensures Split(CollapseWhitespace(s)) == Split(s)
    decreases |s|
  {
    if s != [] {
      SplitCollapse(s[1..]);
      CollapseShape(s[1..]);
      var rest := CollapseWhitespace(s[1..]);
      if IsWhitespace(s[0]) {
        if !(|s| > 1 && IsWhitespace(s[1])) {
          assert ([' '] + rest)[1..] == rest;
        }
      } else {
        assert s == [s[0]] + s[1..];
        SplitCons(s[0], s[1..]);
        SplitCons(s[0], rest);
      }
    }
  }

  /** Trailing whitespace does not change the tokens. */
  lemma {:induction false} SplitTrailing(x: string, w: string)
    requires AllWhitespace(w)
    ensures Split(x + w) == Split(x)
    decreases |x|
  {
    if x == [] {
      assert x + w == w;
      SplitBlank(w);
    } else {
      assert (x + w)[0] == x[0];
      assert (x + w)[1..] == x[1..] + w;
      SplitTrailing(x[1..], w);
      if !IsWhitespace(x[0]) {
        assert x == [x[0]] + x[1..];
        assert x + w == [x[0]] + (x[1..] + w);
        SplitCons(x[0], x[1..]);
        SplitCons(x[0], x[1..] + w);
      }
    }
  }

  /** Leading whitespace does not change the tokens. */
  lemma {:induction false} SplitLeading(s: string, n: nat)
    requires n <= |s| && forall i :: 0 <= i < n ==> IsWhitespace(s[i])
    ensures Split(s[n..]) == Split(s)
    decreases n
  {
    if n > 0 {
      assert s[1..][n - 1..] == s[n..];
      SplitLeading(s[1..], n - 1);
    }
  }

  /** Whitespace-only text has no tokens. */
  lemma {:induction false} SplitBlank(s: string)
    requires AllWhitespace(s)
    ensures Split(s) == []
    decreases |s|
  {
    if s != [] {
      SplitBlank(s[1..]);
    }
  }

  /** Stripping does not change the tokens. */
  lemma SplitStrip(s: string)
    ensures Split(Strip(s)) == Split(s)
  {
    var a := LeadingWhitespace(s);
    if a == |s| {
      SplitBlank(s);
    } else {
      var b := |s| - TrailingWhitespace(s);
      var middle, tail := s[a..b], s[b..];
      assert Strip(s) == middle;
      assert s[a..] == middle + tail;
      assert AllWhitespace(tail) by {
        assert forall i :: 0 <= i < |tail| ==> tail[i] == s[b + i];
      }
      SplitTrailing(middle, tail);
      SplitLeading(s, a);
    }
  }

  /** The tokens of the cleaned text are the tokens of the lowered text once
      punctuation and digits are deleted: collapsing and stripping lose none. */
  lemma CleanedTokens(text: string)
    ensures Split(Cleaned(text)) == Split(RemoveChars(RemoveChars(Lower(text), IsPunctuation), IsDigit))
  {
    var noDigits := RemoveChars(RemoveChars(Lower(text), IsPunctuation), IsDigit);
    SplitCollapse(noDigits);
    SplitStrip(CollapseWhitespace(noDigits));
  }

  /** Cleaning is a closed operation: cleaning cleaned text changes nothing. */
  lemma CleanedIdempotent(text: string)
    ensures Cleaned(Cleaned(text)) == Cleaned(text)
  {
    var c := Cleaned(text);
    CleanedSpacing(text);
    CleanedChars(text);
    LowerShape(c);
    assert forall i :: 0 <= i < |c| ==> !IsUpper(c[i]) && !IsPunctuation(c[i]) && !IsDigit(c[i]) by {
      forall i | 0 <= i < |c| ensures !IsUpper(c[i]) && !IsPunctuation(c[i]) && !IsDigit(c[i]) {
        assert c[i] in c;
      }
    }
    assert Lower(c) == c;
    RemoveCharsFixed(c, IsPunctuation);
    RemoveCharsFixed(c, IsDigit);
    CollapseFixed(c);
    StripFixed(c);
  }

  /** Text made only of punctuation, digits and whitespace normalises to "". */
  lemma NoiseOnlyGivesEmpty(text: string, stopwords: seq<string>, stem: string -> string)
    requires forall i :: 0 <= i < |text| ==> IsPunctuation(text[i]) || IsDigit(text[i]) || IsWhitespace(text[i])
    ensures Cleaned(text) == []
    ensures Preprocess(Some(text), stopwords, stem) == ""
  {
    var lowered := Lower(text);
    LowerShape(text);
    assert lowered == text;
    var noPunctuation := RemoveChars(lowered, IsPunctuation);
    var noDigits := RemoveChars(noPunctuation, IsDigit);
    RemoveCharsContents(lowered, IsPunctuation);
    RemoveCharsContents(noPunctuation, IsDigit);
    assert forall i :: 0 <= i < |noDigits| ==> IsWhitespace(noDigits[i]) by {
      forall i | 0 <= i < |noDigits| ensures IsWhitespace(noDigits[i]) {
        assert noDigits[i] in noDigits;
      }
    }
    var collapsed := CollapseWhitespace(noDigits);
    CollapseShape(noDigits);
    assert forall i :: 0 <= i < |collapsed| ==> IsWhitespace(collapsed[i]) by {
      forall i | 0 <= i < |collapsed| ensures IsWhitespace(collapsed[i]) {
        assert collapsed[i] in collapsed;
      }
    }
    StripBlank(collapsed);
  }

  /** Text whose every token is a stopword normalises to "". */
  lemma AllStopwordsGivesEmpty(text: string, stopwords: seq<string>, stem: string -> string)
    requires forall k :: 0 <= k < |Split(Cleaned(text))| ==> Split(Cleaned(text))[k] in stopwords
    ensures Preprocess(Some(text), stopwords, stem) == ""
  {
    var kept := Kept(Split(Cleaned(text)), stopwords);
    KeptContents(Split(Cleaned(text)), stopwords);
    assert multiset(kept) == multiset{};
  }

  /** Never more stems than cleaned tokens; when the stemmer maps words to
      words, splitting the output gives exactly the stems, in order. */
  lemma OutputPieces(text: string, stopwords: seq<string>, stem: string -> string)
    ensures |StemAll(Kept(Split(Cleaned(text)), stopwords), stem)| <= |Split(Cleaned(text))|
    ensures (forall w :: IsWord(w) ==> IsWord(stem(w))) ==>
      Split(Preprocess(Some(text), stopwords, stem)) == StemAll(Kept(Split(Cleaned(text)), stopwords), stem)
  {
    var stems := StemAll(Kept(Split(Cleaned(text)), stopwords), stem);
    if forall w :: IsWord(w) ==> IsWord(stem(w)) {
      SplitWords(Cleaned(text));
      var kept := Kept(Split(Cleaned(text)), stopwords);
      KeptContents(Split(Cleaned(text)), stopwords);
      forall k | 0 <= k < |stems| ensures IsWord(stems[k]) {
        assert kept[k] in kept;
      }
      SplitJoin(stems);
    }
  }

  /** `w` holds no punctuation character and no digit. */
  predicate NoPunctuationOrDigit(w: string) {
    forall i :: 0 <= i < |w| ==> !IsPunctuation(w[i]) && !IsDigit(w[i])
  }

  /** Two clean pieces joined by a space give clean text. */
  lemma ConcatNoPunctuationOrDigit(a: string, b: string)
    requires NoPunctuationOrDigit(a) && NoPunctuationOrDigit(b)
    ensures NoPunctuationOrDigit(a + " " + b)
  {
  }

  /** Joining clean words with spaces gives clean text. */
  lemma {:induction false} JoinNoPunctuationOrDigit(words: seq<string>)
    requires forall k :: 0 <= k < |words| ==> NoPunctuationOrDigit(words[k])
    ensures NoPunctuationOrDigit(Join(words))
    decreases |words|
  {
    if |words| > 1 {
      JoinNoPunctuationOrDigit(words[1..]);
      ConcatNoPunctuationOrDigit(words[0], Join(words[1..]));
    }
  }

  /** The output is free of punctuation and digits whenever the stemmer adds
      none to a clean word; the source itself guarantees this only before stemming. */
  lemma OutputClean(text: string, stopwords: seq<string>, stem: string -> string)
    requires forall w :: NoPunctuationOrDigit(w) ==> NoPunctuationOrDigit(stem(w))
    ensures NoPunctuationOrDigit(Preprocess(Some(text), stopwords, stem))
  {
    var words := Split(Cleaned(text));
    var kept := Kept(words, stopwords);
    var stems := StemAll(kept, stem);
    CleanedChars(text);
    SplitWords(Cleaned(text));
    KeptContents(words, stopwords);
    forall w | w in words ensures NoPunctuationOrDigit(w) {
      forall i | 0 <= i < |w| ensures !IsPunctuation(w[i]) && !IsDigit(w[i]) {
        assert w[i] in w;
      }
    }
    forall k | 0 <= k < |stems| ensures NoPunctuationOrDigit(stems[k]) {
      assert kept[k] in kept;
    }
    JoinNoPunctuationOrDigit(stems);
  }

  /** One-letter text is cleaned to itself and is a single token. */
  lemma SingleLetterTokens(c: char)
    requires !IsUpper(c) && !IsPunctuation(c) && !IsDigit(c) && !IsWhitespace(c)
    ensures Cleaned([c]) == [c]
    ensures Split(Cleaned([c])) == [[c]]
  {
    assert Lower([c]) == [c];
    assert RemoveChars([c], IsPunctuation) == [c];
    assert RemoveChars([c], IsDigit) == [c];
    assert CollapseWhitespace([c]) == [c];
    assert TakeWord([c]) == [c];
  }

  /** The whole pipeline is not idempotent: a stemmer that lengthens a word
      changes the output of a second pass. Only the cleaning is idempotent. */
  lemma PreprocessNotIdempotent()
    ensures var stem := (w: string) => w + "a";
      Preprocess(Some("b"), [], stem) == "ba" && Preprocess(Some("ba"), [], stem) != "ba"
  {
    var stem := (w: string) => w + "a";
    SingleLetterTokens('b');
    assert Preprocess(Some("b"), [], stem) == "ba";
    SplitJoin(["ba"]);
    CleanedIsJoinedTokens("ba");
    var cleaned := Cleaned("ba");
    assert cleaned == "ba" by {
      assert Lower("ba") == "ba";
      assert RemoveChars("ba", IsPunctuation) == "ba";
      assert RemoveChars("ba", IsDigit) == "ba";
      CollapseFixed("ba");
      StripFixed("ba");
    }
    assert Preprocess(Some("ba"), [], stem) == "baa";
  }

  /** A token is filtered before stemming only: a stemmer may still produce a
      stopword, so the output can contain one. */
  lemma StemmedStopwordSurvives()
    ensures Preprocess(Some("b"), ["и"], (w: string) => "и") == "и"
  {
    SingleLetterTokens('b');
  }
}
