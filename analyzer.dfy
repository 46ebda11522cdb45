/**
 * `analyze_resume`: the empty-input guard, the call into the vectorizer and
 * the model, the scaling of the positive-class probability to a percentage,
 * and the conclusion drawn from it. The vectorizer and the model are opaque
 * parameters that either return a value or raise.
 */
module Analyzer {
  import opened Wrappers
  import opened CharClasses
  import opened Normalizer
  import opened Verdict

  /** Why scoring failed: an exception raised by the vectorizer or the
      model, or a probability table without a row 0, column 1. */
  datatype ScoringError = Raised(cause: string) | IndexOutOfRange

  /** What the user is shown after pressing the button. */
  datatype Outcome =
    | EmptyInput
    | ScoringFailed(error: ScoringError)
    | Shown(percent: real, conclusion: Conclusion)

  /** Entry 1 of row 0 of the model's probability table (`[0][1]`). */
  function PositiveProbability(table: seq<seq<real>>): (r: Result<real, ScoringError>)
    ensures r.Success? <==> |table| > 0 && |table[0]| > 1
    ensures r.Success? ==> r.value == table[0][1]
    ensures r.Failure? ==> r.error == IndexOutOfRange
  {
    if |table| > 0 && |table[0]| > 1 then Success(table[0][1]) else Failure(IndexOutOfRange)
  }

  /** Blank text is rejected; otherwise the preprocessed text goes to the
      vectorizer as a one-element batch, its features to the model, and the
      positive-class probability, times 100, is shown with its conclusion.
      Any exception along the way is reported with its cause. */
  function AnalyzeResume<V>(
    text: string,
    stopwords: seq<string>,
    stem: string -> string,
    transform: seq<string> -> Result<V, ScoringError>,
    predictProba: V -> Result<seq<seq<real>>, ScoringError>
  ): (o: Outcome)
    ensures o == EmptyInput <==> AllWhitespace(text)
    ensures o.Shown? ==> o.conclusion == Conclude(o.percent)
  {
    StripBlank(text);
    if Strip(text) == [] then EmptyInput
    else
      var processed := Preprocess(Some(text), stopwords, stem);
      match transform([processed])
      case Failure(e) => ScoringFailed(e)
      case Success(features) =>
        match predictProba(features)
        case Failure(e) => ScoringFailed(e)
        case Success(table) =>
          match PositiveProbability(table)
          case Failure(e) => ScoringFailed(e)
          case Success(p) =>
            var percent := p * 100.0;
            Shown(percent, Conclude(percent))
  }

  /** Each path through the `try` block of non-blank text: a failure of the
      vectorizer, of the model or of the `[0][1]` read is reported with its
      cause, and otherwise the percentage shown is the positive-class
      probability of the preprocessed one-element batch times 100. */
  lemma ScoringSteps<V>(
    text: string,
    stopwords: seq<string>,
    stem: string -> string,
    transform: seq<string> -> Result<V, ScoringError>,
    predictProba: V -> Result<seq<seq<real>>, ScoringError>)
    requires !AllWhitespace(text)
    ensures var o := AnalyzeResume(text, stopwords, stem, transform, predictProba);
      var features := transform([Preprocess(Some(text), stopwords, stem)]);
      features.Failure? ==> o == ScoringFailed(features.error)
    ensures var o := AnalyzeResume(text, stopwords, stem, transform, predictProba);
      var features := transform([Preprocess(Some(text), stopwords, stem)]);
      features.Success? && predictProba(features.value).Failure? ==>
        o == ScoringFailed(predictProba(features.value).error)
    ensures var o := AnalyzeResume(text, stopwords, stem, transform, predictProba);
      var features := transform([Preprocess(Some(text), stopwords, stem)]);
      features.Success? && predictProba(features.value).Success? ==>
        var p := PositiveProbability(predictProba(features.value).value);
        (p.Failure? ==> o == ScoringFailed(IndexOutOfRange))
        && (p.Success? ==> o == Shown(p.value * 100.0, Conclude(p.value * 100.0)))
  {
  }

  /** Blank text never reaches preprocessing, the vectorizer or the model:
      the outcome is the same whatever they are. */
  lemma BlankNeverScored<V, W>(
    text: string,
    stopwords1: seq<string>, stem1: string -> string,
    transform1: seq<string> -> Result<V, ScoringError>,
    predictProba1: V -> Result<seq<seq<real>>, ScoringError>,
    stopwords2: seq<string>, stem2: string -> string,
    transform2: seq<string> -> Result<W, ScoringError>,
    predictProba2: W -> Result<seq<seq<real>>, ScoringError>)
    requires AllWhitespace(text)
    ensures AnalyzeResume(text, stopwords1, stem1, transform1, predictProba1) == EmptyInput
    ensures AnalyzeResume(text, stopwords1, stem1, transform1, predictProba1)
         == AnalyzeResume(text, stopwords2, stem2, transform2, predictProba2)
  {
  }

  /** The vectorizer sees only the preprocessed text: two vectorizers that
      agree on that one-element batch give the same outcome. */
  lemma OnlyPreprocessedTextIsVectorized<V>(
    text: string,
    stopwords: seq<string>,
    stem: string -> string,
    transform1: seq<string> -> Result<V, ScoringError>,
    transform2: seq<string> -> Result<V, ScoringError>,
    predictProba: V -> Result<seq<seq<real>>, ScoringError>)
    requires transform1([Preprocess(Some(text), stopwords, stem)]) == transform2([Preprocess(Some(text), stopwords, stem)])
    ensures AnalyzeResume(text, stopwords, stem, transform1, predictProba)
         == AnalyzeResume(text, stopwords, stem, transform2, predictProba)
  {
  }

  /** A model whose probabilities lie in [0, 1] gives a percentage in [0, 100],
      and non-blank text with a well-formed table is always shown. */
  lemma PercentInRange<V(!new)>(
    text: string,
    stopwords: seq<string>,
    stem: string -> string,
    transform: seq<string> -> Result<V, ScoringError>,
    predictProba: V -> Result<seq<seq<real>>, ScoringError>)
    requires SoundModel(predictProba)
    ensures AnalyzeResume(text, stopwords, stem, transform, predictProba).Shown? ==>
      0.0 <= AnalyzeResume(text, stopwords, stem, transform, predictProba).percent <= 100.0
    ensures (!AllWhitespace(text)
             && transform([Preprocess(Some(text), stopwords, stem)]).Success?
             && predictProba(transform([Preprocess(Some(text), stopwords, stem)]).value).Success?)
         ==> AnalyzeResume(text, stopwords, stem, transform, predictProba).Shown?
  {
  }

  /** A model whose every answer is a well-formed probability table. */
  ghost predicate SoundModel<V(!new)>(predictProba: V -> Result<seq<seq<real>>, ScoringError>) {
    forall v :: predictProba(v).Success? ==> ValidTable(predictProba(v).value)
  }

  /** Row 0 of a sound model's table has a positive-class probability in [0, 1]. */
  lemma SoundModelTable<V(!new)>(predictProba: V -> Result<seq<seq<real>>, ScoringError>, v: V)
    requires SoundModel(predictProba)
    requires predictProba(v).Success?
    ensures PositiveProbability(predictProba(v).value).Success?
    ensures 0.0 <= PositiveProbability(predictProba(v).value).value <= 1.0
  {
  }

  /** A probability table of one row per input, each row a distribution over
      the negative and the positive class. */
  predicate ValidTable(table: seq<seq<real>>) {
    |table| > 0 && forall i :: 0 <= i < |table| ==>
      |table[i]| == 2 && 0.0 <= table[i][0] <= 1.0 && 0.0 <= table[i][1] <= 1.0
  }

  /** An end-to-end example: a non-blank resume that a stub model scores at
      0.85 is shown as 85 percent, a teacher's resume. */
  lemma StubModelScenario(stopwords: seq<string>, stem: string -> string)
    ensures AnalyzeResume("Преподаю математику 20 лет в школе!", stopwords, stem,
                          (batch: seq<string>) => Success(batch),
                          (features: seq<string>) => Success([[0.15, 0.85]]))
         == Shown(85.0, Teacher)
  {
    var text := "Преподаю математику 20 лет в школе!";
    assert !IsWhitespace(text[0]);
  }
}
