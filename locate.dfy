/** `locateWord`: where a word occurs in the token list. */
module Locate {
  import opened Sequences

  /** Collect, by appends, the index of every entry equal to theWord. */
  method LocateWord(theWord: string, wordList: seq<string>) returns (locations: seq<nat>)
    ensures locations == Positions(wordList, theWord)
  {
    locations := [];
    for i := 0 to |wordList|
      invariant locations == Positions(wordList[..i], theWord)
    {
      assert wordList[..i + 1][..i] == wordList[..i];
      if wordList[i] == theWord {
        locations := locations + [i];
      }
    }
    assert wordList[..|wordList|] == wordList;
  }
}
