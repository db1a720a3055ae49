/** The scorers `scoreTextWordList`, `positiveWordsScore` and
    `negativeWordsScore`. The script reads the lexicon from the global
    `sentDict`; here it is an explicit parameter. */
module Scorer {

  /** The lexicon's score for a word, 0 when the word is not a key. */
  function Score(lexicon: map<string, int>, word: string): int {
    if word in lexicon then lexicon[word] else 0
  }

  /** What the positive-only filter keeps of a score. */
  function PositivePart(n: int): int {
    if n > 0 then n else 0
  }

  /** What the negative-only filter keeps of a score. */
  function NegativePart(n: int): int {
    if n < 0 then n else 0
  }

  /** The two filters split every score into a non-negative and a
      non-positive part that add up to it. */
  lemma SignSplit(n: int)
    ensures PositivePart(n) >= 0 && NegativePart(n) <= 0
    ensures PositivePart(n) + NegativePart(n) == n
    ensures PositivePart(n) == 0 || NegativePart(n) == 0
  {
  }

  /** With a lexicon whose scores lie in lo..hi around 0, every word's
      score does too (absent words score 0). */
  lemma ScoreWithin(lexicon: map<string, int>, lo: int, hi: int, word: string)
    requires lo <= 0 <= hi
    requires forall w :: w in lexicon ==> lo <= lexicon[w] <= hi
    ensures lo <= Score(lexicon, word) <= hi
  {
  }

  /** `scoreTextWordList`: one score per word, in order. */
  method ScoreTextWordList(lexicon: map<string, int>, wordList: seq<string>) returns (wordSentimentScores: seq<int>)
    ensures |wordSentimentScores| == |wordList|
    ensures forall i :: 0 <= i < |wordList| && wordList[i] in lexicon ==>
      wordSentimentScores[i] == lexicon[wordList[i]]
    ensures forall i :: 0 <= i < |wordList| && wordList[i] !in lexicon ==>
      wordSentimentScores[i] == 0
  {
    wordSentimentScores := [];
    for k := 0 to |wordList|
      invariant |wordSentimentScores| == k
      invariant forall i :: 0 <= i < k ==> wordSentimentScores[i] == Score(lexicon, wordList[i])
    {
      var word := wordList[k];
      if word in lexicon {
        wordSentimentScores := wordSentimentScores + [lexicon[word]];
      } else {
        wordSentimentScores := wordSentimentScores + [0];
      }
    }
  }

  /** `positiveWordsScore`: a word's score where it is positive, else 0. */
  method PositiveWordsScore(lexicon: map<string, int>, wordList: seq<string>) returns (posScore: seq<int>)
    ensures |posScore| == |wordList|
    ensures forall i :: 0 <= i < |wordList| ==> posScore[i] >= 0
    ensures forall i :: 0 <= i < |wordList| ==> posScore[i] == PositivePart(Score(lexicon, wordList[i]))
  {
    posScore := [];
    for k := 0 to |wordList|
      invariant |posScore| == k
      invariant forall i :: 0 <= i < k ==> posScore[i] == PositivePart(Score(lexicon, wordList[i]))
    {
      var word := wordList[k];
      if word in lexicon {
        if lexicon[word] > 0 {
          posScore := posScore + [lexicon[word]];
        } else {
          posScore := posScore + [0];
        }
      } else {
        posScore := posScore + [0];
      }
    }
  }

  /** `negativeWordsScore`: a word's score where it is negative, else 0. */
  method NegativeWordsScore(lexicon: map<string, int>, wordList: seq<string>) returns (negScore: seq<int>)
    ensures |negScore| == |wordList|
    ensures forall i :: 0 <= i < |wordList| ==> negScore[i] <= 0
    ensures forall i :: 0 <= i < |wordList| ==> negScore[i] == NegativePart(Score(lexicon, wordList[i]))
  {
    negScore := [];
    for k := 0 to |wordList|
      invariant |negScore| == k
      invariant forall i :: 0 <= i < k ==> negScore[i] == NegativePart(Score(lexicon, wordList[i]))
    {
      var word := wordList[k];
      if word in lexicon {
        if lexicon[word] < 0 {
          negScore := negScore + [lexicon[word]];
        } else {
          negScore := negScore + [0];
        }
      } else {
        negScore := negScore + [0];
      }
    }
  }

  /** Running the three scorers over the same words: each word's full score
      is its lexicon score, the positive-only and negative-only lists hold
      its two parts, and they add up, position by position, to the full one. */
  method ScoreBySign(lexicon: map<string, int>, wordList: seq<string>)
    returns (scores: seq<int>, posScore: seq<int>, negScore: seq<int>)
    ensures |scores| == |posScore| == |negScore| == |wordList|
    ensures forall i :: 0 <= i < |wordList| ==>
      && scores[i] == Score(lexicon, wordList[i])
      && posScore[i] == PositivePart(scores[i])
      && negScore[i] == NegativePart(scores[i])
    ensures forall i :: 0 <= i < |wordList| ==> posScore[i] + negScore[i] == scores[i]
  {
    scores := ScoreTextWordList(lexicon, wordList);
    posScore := PositiveWordsScore(lexicon, wordList);
    negScore := NegativeWordsScore(lexicon, wordList);
    forall i | 0 <= i < |wordList|
      ensures posScore[i] + negScore[i] == scores[i]
    {
      SignSplit(Score(lexicon, wordList[i]));
    }
  }
}
