/** The script's main sequence: load the lexicon, tokenize the document,
    score every token and smooth the scores with a moving average. The
    lexicon file and the document arrive as their lines; the plot and the
    printed excerpt that follow are not modelled. */
module Pipeline {
  import opened Results
  import opened Lexicon
  import opened Tokenizer
  import opened Scorer
  import opened MovingAverage

  /** Lowest and highest scores of the AFINN word lists. */
  const AfinnMin := -5
  const AfinnMax := 5

  predicate WithinAfinnRange(lexicon: map<string, int>) {
    forall w :: w in lexicon ==> AfinnMin <= lexicon[w] <= AfinnMax
  }

  datatype Analysis = Analysis(
    lexicon: map<string, int>,
    wordList: seq<string>,
    wordSentimentScores: seq<int>,
    movAvgScore: seq<real>)

  /** The whole analysis. A malformed lexicon stops it with the loader's
      error; otherwise every token gets its lexicon score, the averages
      line up with the tokens, the first W averages are the 0 placeholders
      (all of them when W is at least the token count), each later one is
      the mean of the W scores before it, and with an AFINN-range lexicon every
      average stays within -5..5. */
  method Analyze(lexiconLines: seq<string>, documentLines: seq<string>, movAvPeriod: int)
    returns (r: Result<Analysis, LexiconError>)
    requires movAvPeriod >= 1
    ensures r.Err? <==> ParseLexicon(lexiconLines).Err?
    ensures r.Err? ==> r.error == ParseLexicon(lexiconLines).error
    ensures r.Ok? ==> r.value.lexicon == ParseLexicon(lexiconLines).value
    ensures r.Ok? ==> r.value.wordList == Tokenize(documentLines)
    ensures r.Ok? ==> |r.value.wordSentimentScores| == |r.value.wordList|
    ensures r.Ok? ==> forall i :: 0 <= i < |r.value.wordList| ==>
      r.value.wordSentimentScores[i] == Score(r.value.lexicon, r.value.wordList[i])
    ensures r.Ok? ==> |r.value.movAvgScore| == Max(movAvPeriod, |r.value.wordList|)
    ensures r.Ok? ==> forall i :: 0 <= i < movAvPeriod ==> r.value.movAvgScore[i] == 0.0
    ensures r.Ok? ==> forall i :: movAvPeriod <= i < |r.value.wordList| ==>
      r.value.movAvgScore[i] == Mean(r.value.wordSentimentScores[i - movAvPeriod..i])
    ensures r.Ok? && WithinAfinnRange(r.value.lexicon) ==>
      forall i :: 0 <= i < |r.value.movAvgScore| ==>
        AfinnMin as real <= r.value.movAvgScore[i] <= AfinnMax as real
  {
    var loaded := ReadSentimentFile(lexiconLines);
    if loaded.Err? {
      return Err(loaded.error);
    }
    var sentDict := loaded.value;
    var wordList := TextToList(documentLines);
    var wordSentimentScores := ScoreTextWordList(sentDict, wordList);
    var movAvgScore := FindMovAvgScore(wordSentimentScores, movAvPeriod);
    if WithinAfinnRange(sentDict) {
      forall i | 0 <= i < |movAvgScore|
        ensures AfinnMin as real <= movAvgScore[i] <= AfinnMax as real
      {
        if movAvPeriod <= i {
          var window := wordSentimentScores[i - movAvPeriod..i];
          forall k | 0 <= k < |window|
            ensures AfinnMin <= window[k] <= AfinnMax
          {
            ScoreWithin(sentDict, AfinnMin, AfinnMax, wordList[i - movAvPeriod + k]);
          }
          MeanWithin(window, AfinnMin, AfinnMax);
        }
      }
    }
    r := Ok(Analysis(sentDict, wordList, wordSentimentScores, movAvgScore));
  }

  /** Scoring and smoothing "it is great very great" with the one-entry
      lexicon {great: 3} and a period of 2. */
  method MovingAverageExample() {
    var lexicon := map["great" := 3];
    var words := ["it", "is", "great", "very", "great"];
    var scores := ScoreTextWordList(lexicon, words);
    assert scores == [0, 0, 3, 0, 3];
    var averages := FindMovAvgScore(scores, 2);
    assert scores[1..3] == [0, 3] && scores[2..4] == [3, 0];
    assert Sum([0, 3]) == 3 && Sum([3, 0]) == 3;
    assert averages[3] == Mean([0, 3]) == 1.5;
    assert averages[4] == Mean([3, 0]) == 1.5;
    assert scores[0..2] == [0, 0] && Sum([0, 0]) == 0;
    assert |averages| == 5 && averages[2] == Mean([0, 0]) == 0.0;
    assert averages == [0.0, 0.0, 0.0, 1.5, 1.5];
  }
}
