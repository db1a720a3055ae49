/** The AFINN lexicon loader: the loop shared by `readSentimentFileFromGit`
    and `readSentimentFileLocal`, which turns the lines of a tab-separated
    file into a dictionary from term to integer score. Where the lines come
    from (a URL or a local file) is left to the caller. */
module Lexicon {
  import opened Results
  import opened Text
  import opened Integers

  const Tab: char := '\t'
  const Newline: set<char> := {'\n'}

  datatype Entry = Entry(term: string, score: int)

  /** Why one line was refused: unpacking `line.split('\t')` into two names
      saw another number of fields, or `int` refused the score text. */
  datatype LineError = FieldCount(fields: nat) | InvalidScore(text: string)

  /** The first offending line (counted from 0) and what was wrong with it. */
  datatype LexiconError = ParseError(line: nat, reason: LineError)

  /** One lexicon line: split on the tab into exactly a term and a score,
      drop the trailing newlines from the score and read it as an integer. */
  function ParseLine(line: string): Result<Entry, LineError> {
    var fields := SplitOn(line, Tab);
    if |fields| != 2 then Err(FieldCount(|fields|))
    else
      var score := RStripChars(fields[1], Newline);
      match ParseInt(score)
      case None => Err(InvalidScore(score))
      case Some(v) => Ok(Entry(fields[0], v))
  }

  /** A line is refused for its field count exactly when it does not hold
      one tab; a line that parses is its term, one tab, and score text that
      reads as the score once its trailing newlines are dropped. */
  lemma ParseLineShape(line: string)
    ensures var r := ParseLine(line);
      && (r.Err? && r.error.FieldCount? <==> multiset(line)[Tab] != 1)
      && (r.Err? && r.error.FieldCount? ==> r.error.fields == multiset(line)[Tab] + 1)
      && (r.Ok? ==>
            var t := r.value.term;
            && |t| < |line| && line[..|t|] == t && line[|t|] == Tab
            && Tab !in t && Tab !in line[|t| + 1..]
            && ParseInt(RStripChars(line[|t| + 1..], Newline)) == Some(r.value.score))
  {
    var fields := SplitOn(line, Tab);
    SplitOnCount(line, Tab);
    if |fields| == 2 {
      var term, rest := fields[0], fields[1];
      assert Join(fields, Tab) == term + [Tab] + rest;
      assert line == term + [Tab] + rest;
      assert line[..|term|] == term && line[|term|] == Tab && line[|term| + 1..] == rest;
      assert Tab !in term && Tab !in rest;
    }
  }

  /** The converse of the success case: a line holding one tab, whose score
      text reads as an integer once its trailing newlines are dropped,
      parses to its term and that integer, whatever the spelling of the
      score (`+3`, `03` and `-0` included). */
  lemma ParseLineOf(term: string, rest: string, v: int)
    requires Tab !in term && Tab !in rest
    requires ParseInt(RStripChars(rest, Newline)) == Some(v)
    ensures ParseLine(term + [Tab] + rest) == Ok(Entry(term, v))
  {
    assert term + [Tab] + rest == Join([term, rest], Tab);
    SplitOnJoin([term, rest], Tab);
  }

  /** A score written with a plus sign and a leading zero is read as
      Python's `int` reads it. */
  lemma SignedScoreLine(line: string)
    requires line == "good\t+03\n"
    ensures ParseLine(line) == Ok(Entry("good", 3))
  {
    var rest := "+03\n";
    assert line == "good" + [Tab] + rest;
    assert RStripChars(rest, Newline) == "+03";
    var digits := "+03"[1..];
    assert digits == "03" && digits[..1] == "0";
    assert DigitsValue(digits[..1]) == 0;
    assert ParseInt("+03") == Some(3);
    ParseLineOf("good", rest, 3);
  }

  /** A line of the lexicon file as it is written: term, tab, score, newline. */
  function FormatLine(entry: Entry): string {
    entry.term + [Tab] + FormatInt(entry.score) + "\n"
  }

  /** Parsing reads back the term and score of a written line, with or
      without its trailing newlines (the last line of a file may lack one). */
  lemma ParseLineOfWritten(term: string, score: int, newlines: string)
    requires Tab !in term
    requires AllIn(newlines, Newline)
    ensures ParseLine(term + [Tab] + FormatInt(score) + newlines) == Ok(Entry(term, score))
  {
    var text := FormatInt(score);
    var scoreText := text + newlines;
    FormatIntChars(score);
    forall i | 0 <= i < |scoreText|
      ensures scoreText[i] != Tab
    {
      if i < |text| {
        assert scoreText[i] == text[i];
      } else {
        assert scoreText[i] == newlines[i - |text|];
      }
    }
    RStripCharsAppended(text, newlines, Newline);
    ParseFormatInt(score);
    assert term + [Tab] + text + newlines == term + [Tab] + scoreText;
    ParseLineOf(term, scoreText, score);
  }

  lemma ParseFormatLine(entry: Entry)
    requires Tab !in entry.term
    ensures ParseLine(FormatLine(entry)) == Ok(entry)
  {
    ParseLineOfWritten(entry.term, entry.score, "\n");
  }

  /** What each line of the file gives, in order. */
  function LineResults(lines: seq<string>): seq<Result<Entry, LineError>> {
    seq(|lines|, i requires 0 <= i < |lines| => ParseLine(lines[i]))
  }

  /** The loop over the results of the lines: stop at the first line that
      failed, reporting its index, or store every entry in turn, so that a
      later entry for a term overwrites an earlier one. */
  function Collect(results: seq<Result<Entry, LineError>>): Result<map<string, int>, LexiconError>
    decreases |results|
  {
    if results == [] then Ok(map[])
    else
      var n := |results| - 1;
      match Collect(results[..n])
      case Err(e) => Err(e)
      case Ok(m) =>
        match results[n]
        case Err(reason) => Err(ParseError(n, reason))
        case Ok(entry) => Ok(m[entry.term := entry.score])
  }

  /** The dictionary the loaders build from the lines of the file, or the
      error of the first line that raised. */
  function ParseLexicon(lines: seq<string>): Result<map<string, int>, LexiconError> {
    Collect(LineResults(lines))
  }

  lemma {:induction false} CollectErrors(results: seq<Result<Entry, LineError>>)
    ensures Collect(results).Ok? <==> forall i :: 0 <= i < |results| ==> results[i].Ok?
    ensures Collect(results).Err? ==>
      var e := Collect(results).error;
      && e.line < |results|
      && results[e.line] == Err(e.reason)
      && forall i :: 0 <= i < e.line ==> results[i].Ok?
    decreases |results|
  {
    if results != [] {
      var n := |results| - 1;
      var init := results[..n];
      CollectErrors(init);
      assert forall i :: 0 <= i < n ==> init[i] == results[i];
    }
  }

  lemma {:induction false} CollectErrorPersists(results: seq<Result<Entry, LineError>>, k: nat)
    requires k <= |results|
    requires Collect(results[..k]).Err?
    ensures Collect(results) == Collect(results[..k])
    decreases |results| - k
  {
    if k < |results| {
      var n := |results| - 1;
      assert results[..n][..k] == results[..k];
      CollectErrorPersists(results[..n], k);
    } else {
      assert results[..k] == results;
    }
  }

  /** Whether a line's result is an entry for the term t. */
  predicate Names(result: Result<Entry, LineError>, t: string) {
    result.Ok? && result.value.term == t
  }

  lemma {:induction false} CollectKeys(results: seq<Result<Entry, LineError>>, m: map<string, int>)
    requires Collect(results) == Ok(m)
    ensures forall t :: t in m <==> exists i :: 0 <= i < |results| && Names(results[i], t)
    decreases |results|
  {
    if results != [] {
      var n := |results| - 1;
      var init := results[..n];
      var m' := Collect(init).value;
      CollectKeys(init, m');
      assert forall i :: 0 <= i < n ==> init[i] == results[i];
    }
  }

  lemma {:induction false} CollectLastWins(results: seq<Result<Entry, LineError>>, m: map<string, int>, i: nat, term: string, score: int)
    requires Collect(results) == Ok(m)
    requires i < |results| && results[i] == Ok(Entry(term, score))
    requires forall j :: i < j < |results| ==> !Names(results[j], term)
    ensures term in m && m[term] == score
    decreases |results|
  {
    var n := |results| - 1;
    var init := results[..n];
    if i < n {
      assert init[i] == results[i];
      CollectLastWins(init, Collect(init).value, i, term, score);
    }
  }

  /** Loading succeeds exactly when every line parses; when it fails, the
      error names the first line that does not parse and why. */
  lemma ParseLexiconErrors(lines: seq<string>)
    ensures ParseLexicon(lines).Ok? <==> forall i :: 0 <= i < |lines| ==> ParseLine(lines[i]).Ok?
    ensures ParseLexicon(lines).Err? ==>
      var e := ParseLexicon(lines).error;
      && e.line < |lines|
      && ParseLine(lines[e.line]) == Err(e.reason)
      && forall i :: 0 <= i < e.line ==> ParseLine(lines[i]).Ok?
  {
    var results := LineResults(lines);
    assert forall i :: 0 <= i < |lines| ==> results[i] == ParseLine(lines[i]);
    CollectErrors(results);
  }

  /** Once a prefix of the lines has failed, the whole load fails the same way. */
  lemma ParseLexiconErrorPersists(lines: seq<string>, k: nat)
    requires k <= |lines|
    requires ParseLexicon(lines[..k]).Err?
    ensures ParseLexicon(lines) == ParseLexicon(lines[..k])
  {
    assert LineResults(lines[..k]) == LineResults(lines)[..k];
    CollectErrorPersists(LineResults(lines), k);
  }

  /** The keys of the loaded dictionary are exactly the terms of its lines. */
  lemma ParseLexiconKeys(lines: seq<string>, m: map<string, int>)
    requires ParseLexicon(lines) == Ok(m)
    ensures forall t :: t in m <==> exists i :: 0 <= i < |lines| && Names(LineResults(lines)[i], t)
  {
    CollectKeys(LineResults(lines), m);
  }

  /** A term gets the score of the last line that names it: a later
      duplicate overwrites an earlier one. */
  lemma LastLineWins(lines: seq<string>, m: map<string, int>, i: nat, term: string, score: int)
    requires ParseLexicon(lines) == Ok(m)
    requires i < |lines| && ParseLine(lines[i]) == Ok(Entry(term, score))
    requires forall j :: i < j < |lines| ==> !Names(ParseLine(lines[j]), term)
    ensures term in m && m[term] == score
  {
    CollectLastWins(LineResults(lines), m, i, term, score);
  }

  /** The loading loop: fill `wordScores` line by line, stopping at the first
      line that does not parse. */
  method ReadSentimentFile(lines: seq<string>) returns (r: Result<map<string, int>, LexiconError>)
    ensures r == ParseLexicon(lines)
  {
    ghost var results := LineResults(lines);
    var wordScores: map<string, int> := map[];
    var i := 0;
    while i < |lines|
      invariant 0 <= i <= |lines|
      invariant Collect(results[..i]) == Ok(wordScores)
    {
      assert results[..i + 1][..i] == results[..i];
      assert results[..i + 1][i] == ParseLine(lines[i]);
      var fields := SplitOn(lines[i], Tab);
      if |fields| != 2 {
        r := Err(ParseError(i, FieldCount(|fields|)));
        CollectErrorPersists(results, i + 1);
        return;
      }
      var term, score := fields[0], fields[1];
      score := RStripChars(score, Newline);
      var value := ParseInt(score);
      if value.None? {
        r := Err(ParseError(i, InvalidScore(score)));
        CollectErrorPersists(results, i + 1);
        return;
      }
      wordScores := wordScores[term := value.value];
      i := i + 1;
    }
    assert results[..i] == results;
    r := Ok(wordScores);
  }

  /** A file of one line gives that line's entry alone, or its error at line 0. */
  lemma CollectOne(result: Result<Entry, LineError>)
    ensures Collect([result]) == match result
      case Ok(entry) => Ok(map[entry.term := entry.score])
      case Err(reason) => Err(ParseError(0, reason))
  {
    assert [result][..0] == [];
  }

  /** A file of one written line loads as that line's entry alone. */
  lemma SingleLineLexicon(entry: Entry)
    requires Tab !in entry.term
    ensures ParseLexicon([FormatLine(entry)]) == Ok(map[entry.term := entry.score])
  {
    ParseFormatLine(entry);
    assert LineResults([FormatLine(entry)]) == [ParseLine(FormatLine(entry))];
    CollectOne(ParseLine(FormatLine(entry)));
  }

  /** A line without a tab is refused as a single field. */
  lemma LineWithoutTab(line: string)
    requires Tab !in line
    ensures ParseLexicon([line]) == Err(ParseError(0, FieldCount(1)))
  {
    SplitOnNoSeparator(line, Tab);
    assert LineResults([line]) == [ParseLine(line)];
    CollectOne(ParseLine(line));
  }
}
