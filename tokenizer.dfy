/** `textToList`: the lines of a document become the flat list of its
    whitespace-delimited units, each with its punctuation removed. Reading
    the file is left to the caller, which passes the lines. */
module Tokenizer {
  import opened Text

  /** Each line stripped and split on whitespace, as the comprehension
      over the file's lines does. */
  function SplitLines(lines: seq<string>): seq<seq<string>> {
    seq(|lines|, i requires 0 <= i < |lines| => Words(Strip(lines[i])))
  }

  /** The lists concatenated in order. */
  function Flatten(parts: seq<seq<string>>): seq<string>
    decreases |parts|
  {
    if parts == [] then []
    else Flatten(parts[..|parts| - 1]) + parts[|parts| - 1]
  }

  /** The units of every line, flattened in document order. */
  function Units(lines: seq<string>): seq<string> {
    Flatten(SplitLines(lines))
  }

  lemma {:induction false} FlattenAppend(p: seq<seq<string>>, q: seq<seq<string>>)
    ensures Flatten(p + q) == Flatten(p) + Flatten(q)
    decreases |q|
  {
    if q == [] {
      assert p + q == p;
    } else {
      var n := |q| - 1;
      var pq := p + q;
      assert pq[..|pq| - 1] == p + q[..n] && pq[|pq| - 1] == q[n];
      FlattenAppend(p, q[..n]);
    }
  }

  /** A flattened list holds only entries of its parts. */
  lemma {:induction false} FlattenNoSpace(parts: seq<seq<string>>)
    requires forall i, k :: 0 <= i < |parts| && 0 <= k < |parts[i]| ==> NoSpace(parts[i][k])
    ensures forall k :: 0 <= k < |Flatten(parts)| ==> NoSpace(Flatten(parts)[k])
    decreases |parts|
  {
    if parts != [] {
      var n := |parts| - 1;
      FlattenNoSpace(parts[..n]);
      var f := Flatten(parts);
      var init := Flatten(parts[..n]);
      forall k | 0 <= k < |f|
        ensures NoSpace(f[k])
      {
        if k < |init| {
          assert f[k] == init[k];
        } else {
          assert f[k] == parts[n][k - |init|];
        }
      }
    }
  }

  /** Every unit with its punctuation removed, in the same order. */
  function StripPunctuation(units: seq<string>): seq<string> {
    seq(|units|, k requires 0 <= k < |units| => RemovePunctuation(units[k]))
  }

  /** The token list: the units of the document, each with every character
      that is neither a word character nor whitespace removed. */
  function Tokenize(lines: seq<string>): seq<string> {
    StripPunctuation(Units(lines))
  }

  lemma StripPunctuationAppend(us: seq<string>, vs: seq<string>)
    ensures StripPunctuation(us + vs) == StripPunctuation(us) + StripPunctuation(vs)
  {
    var t := StripPunctuation(us + vs);
    forall k | 0 <= k < |t|
      ensures t[k] == (StripPunctuation(us) + StripPunctuation(vs))[k]
    {
      if k < |us| {
        assert (us + vs)[k] == us[k];
      } else {
        assert (us + vs)[k] == vs[k - |us|];
      }
    }
  }

  /** The number of whitespace-delimited units, counted line by line. */
  function UnitCount(lines: seq<string>): nat
    decreases |lines|
  {
    if lines == [] then 0 else |Words(lines[0])| + UnitCount(lines[1..])
  }

  lemma UnitsAppend(a: seq<string>, b: seq<string>)
    ensures Units(a + b) == Units(a) + Units(b)
  {
    assert SplitLines(a + b) == SplitLines(a) + SplitLines(b);
    FlattenAppend(SplitLines(a), SplitLines(b));
  }

  /** Tokenizing a document is tokenizing its parts and concatenating:
      no token spans two lines and the order of lines is kept. */
  lemma TokenizeAppend(a: seq<string>, b: seq<string>)
    ensures Tokenize(a + b) == Tokenize(a) + Tokenize(b)
  {
    UnitsAppend(a, b);
    StripPunctuationAppend(Units(a), Units(b));
  }

  lemma UnitsOfLine(line: string)
    ensures Units([line]) == Words(line)
  {
    var parts := SplitLines([line]);
    assert parts == [Words(Strip(line))];
    assert parts[..0] == [];
    assert Flatten(parts) == Flatten(parts[..0]) + parts[0];
    WordsOfStrip(line);
  }

  /** There are exactly as many tokens as whitespace-delimited units. */
  lemma {:induction false} TokenCount(lines: seq<string>)
    ensures |Tokenize(lines)| == UnitCount(lines)
    decreases |lines|
  {
    if lines != [] {
      assert lines == [lines[0]] + lines[1..];
      UnitsAppend([lines[0]], lines[1..]);
      UnitsOfLine(lines[0]);
      TokenCount(lines[1..]);
    }
  }

  /** Token k comes from the k-th unit in document order: unit u of line j
      sits after all the units of the earlier lines. */
  lemma TokenAt(lines: seq<string>, j: nat, u: nat)
    requires j < |lines| && u < |Words(lines[j])|
    ensures UnitCount(lines[..j]) + u < |Tokenize(lines)|
    ensures Tokenize(lines)[UnitCount(lines[..j]) + u] == RemovePunctuation(Words(lines[j])[u])
  {
    var units, before := Units(lines), Units(lines[..j]);
    UnitAt(lines, j, u);
    TokenCount(lines[..j]);
    assert UnitCount(lines[..j]) == |StripPunctuation(before)| == |before|;
    var k := |before| + u;
    assert StripPunctuation(units)[k] == RemovePunctuation(units[k]);
  }

  /** Unit u of line j follows all the units of the lines before it. */
  lemma UnitAt(lines: seq<string>, j: nat, u: nat)
    requires j < |lines| && u < |Words(lines[j])|
    ensures |Units(lines[..j])| + u < |Units(lines)|
    ensures Units(lines)[|Units(lines[..j])| + u] == Words(lines[j])[u]
  {
    var before, after := lines[..j], lines[j + 1..];
    assert lines == before + [lines[j]] + after;
    UnitsAppend(before + [lines[j]], after);
    UnitsAppend(before, [lines[j]]);
    UnitsOfLine(lines[j]);
    var words := Words(lines[j]);
    assert Units(lines) == Units(before) + words + Units(after);
  }

  lemma UnitsHaveNoSpace(lines: seq<string>)
    ensures forall k :: 0 <= k < |Units(lines)| ==> NoSpace(Units(lines)[k])
  {
    FlattenNoSpace(SplitLines(lines));
  }

  /** Every token is made of word characters only (possibly none). */
  lemma TokensAreWordCharacters(lines: seq<string>)
    ensures forall k, i :: 0 <= k < |Tokenize(lines)| && 0 <= i < |Tokenize(lines)[k]| ==>
      IsWordChar(Tokenize(lines)[k][i])
  {
    var units := Units(lines);
    UnitsHaveNoSpace(lines);
    forall k, i | 0 <= k < |Tokenize(lines)| && 0 <= i < |Tokenize(lines)[k]|
      ensures IsWordChar(Tokenize(lines)[k][i])
    {
      var c := Tokenize(lines)[k][i];
      RemovePunctuationKeeps(units[k]);
      assert SurvivesPunctuationFilter(c) && c in units[k];
    }
  }

  /** `textToList`: flatten the split lines into `textList` by appends, then
      rewrite each entry in place with its punctuation removed. */
  method TextToList(lines: seq<string>) returns (textList: seq<string>)
    ensures textList == Tokenize(lines)
  {
    var text := seq(|lines|, i requires 0 <= i < |lines| => Words(Strip(lines[i])));
    assert text == SplitLines(lines);
    textList := [];
    for j := 0 to |text|
      invariant textList == Flatten(text[..j])
    {
      assert text[..j + 1][..j] == text[..j];
      var aLine := text[j];
      for k := 0 to |aLine|
        invariant textList == Flatten(text[..j]) + aLine[..k]
      {
        textList := textList + [aLine[k]];
      }
      assert aLine[..|aLine|] == aLine;
      assert Flatten(text[..j + 1]) == Flatten(text[..j]) + text[j];
    }
    assert text[..|text|] == text;
    ghost var units := textList;
    for i := 0 to |textList|
      invariant |textList| == |units|
      invariant forall k :: 0 <= k < i ==> textList[k] == RemovePunctuation(units[k])
      invariant forall k :: i <= k < |textList| ==> textList[k] == units[k]
    {
      textList := textList[i := RemovePunctuation(textList[i])];
    }
  }

  /** Tokenizing one line whose words are known. */
  lemma TokenizeLine(line: string, units: seq<string>, tokens: seq<string>)
    requires Words(line) == units && |tokens| == |units|
    requires forall k :: 0 <= k < |units| ==> RemovePunctuation(units[k]) == tokens[k]
    ensures Tokenize([line]) == tokens
  {
    UnitsOfLine(line);
  }

  lemma SentenceWords(line: string)
    requires line == "I feel great! Really great."
    ensures Words(line) == ["I", "feel", "great!", "Really", "great."]
  {
    var units := ["I", "feel", "great!", "Really", "great."];
    SentenceJoined(units);
    SentenceUnitsAreWords(units);
    WordsOfJoin(units);
  }

  lemma SentenceJoined(units: seq<string>)
    requires units == ["I", "feel", "great!", "Really", "great."]
    ensures Join(units, ' ') == "I feel great! Really great."
  {
    SentenceTailJoined(units[2..]);
    assert Join(units[1..], ' ') == "feel" + " " + "great! Really great.";
  }

  lemma SentenceTailJoined(units: seq<string>)
    requires units == ["great!", "Really", "great."]
    ensures Join(units, ' ') == "great! Really great."
  {
    assert units[2..] == ["great."];
    assert Join(units[1..], ' ') == "Really" + " " + "great.";
  }

  lemma SentenceUnitsAreWords(units: seq<string>)
    requires units == ["I", "feel", "great!", "Really", "great."]
    ensures forall k :: 0 <= k < |units| ==> units[k] != [] && NoSpace(units[k])
  {
  }

  /** The example words that hold no punctuation come through unchanged. */
  lemma PlainWord(w: string)
    requires w == "I" || w == "feel" || w == "Really" || w == "Fine" || w == "good"
    ensures RemovePunctuation(w) == w
  {
    RemovePunctuationUnchanged(w);
  }

  /** `great!` and `great.` lose their mark and nothing else. */
  lemma GreatWithMark(unit: string)
    requires unit == "great!" || unit == "great."
    ensures RemovePunctuation(unit) == "great"
  {
    var mark := unit[5];
    assert unit == "great" + [mark];
    RemoveTrailingMark("great", mark);
  }

  /** The worked example: "I feel great! Really great." tokenizes to
      I, feel, great, Really, great. */
  lemma TokenizeSentence(line: string)
    requires line == "I feel great! Really great."
    ensures Tokenize([line]) == ["I", "feel", "great", "Really", "great"]
  {
    var units := ["I", "feel", "great!", "Really", "great."];
    var tokens := ["I", "feel", "great", "Really", "great"];
    SentenceWords(line);
    forall k | 0 <= k < |units|
      ensures RemovePunctuation(units[k]) == tokens[k]
    {
      if k == 2 || k == 4 {
        GreatWithMark(units[k]);
      } else {
        PlainWord(units[k]);
      }
    }
    TokenizeLine(line, units, tokens);
  }

  /** A unit made only of punctuation is kept as an empty token. */
  lemma PunctuationUnitKept(line: string)
    requires line == "Fine - good"
    ensures Tokenize([line]) == ["Fine", "", "good"]
  {
    var units := ["Fine", "-", "good"];
    var tokens := ["Fine", "", "good"];
    assert Join(units, ' ') == line;
    WordsOfJoin(units);
    forall k | 0 <= k < |units|
      ensures RemovePunctuation(units[k]) == tokens[k]
    {
      if k == 1 {
        RemovePunctuationAllPunctuation(units[k]);
      } else {
        PlainWord(units[k]);
      }
    }
    TokenizeLine(line, units, tokens);
  }
}
