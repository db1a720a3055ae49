# Sentiment over a moving window — a verified model

`sentiment.py` scores the sentiment of a text document. It loads the AFINN
word list, a tab-separated file of words and integer scores from -5 to 5,
into a dictionary. It splits the document into words and strips their
punctuation. Each word gets its dictionary score, or 0 when the word is not
in the dictionary. A trailing moving average over a window of W words
smooths the scores, and the script plots the result.

This project models the computing part of that script in Dafny and proves
what each step promises:

- `Lexicon`: the loop shared by `readSentimentFileFromGit` and
  `readSentimentFileLocal`, over the lines of the AFINN file. The two loops
  are identical (sentiment.py:65-69 and sentiment.py:82-86), so one method
  models both.
- `Paths`: the pure part of `checkFileAvailability`. It takes a path apart
  into a directory and a file name, and the current directory is a
  parameter.
- `Tokenizer`: `textToList`, over the lines of the document.
- `Scorer`: `scoreTextWordList`, `positiveWordsScore` and
  `negativeWordsScore`. The global `sentDict` becomes an explicit
  `map<string, int>` parameter.
- `MovingAverage`: `findMovAvgScore`.
- `Locate`: `locateWord`.
- `Pipeline`: the script's main sequence, load, tokenize, score and
  average (sentiment.py:343-346).
- Supporting modules give Python's string built-ins exact definitions:
  `Text` covers `split`, `strip`, `rstrip` and `re.sub(r'[^\w\s]', '', ...)`,
  `Integers` covers `int` and `str` on integers, and `Sequences` covers the
  positions of an element.

Strings are Python 2 byte strings. Whitespace is `' '` plus the characters
9 to 13. `\w` is the ASCII class `[A-Za-z0-9_]`.

Errors the script raises become values. A lexicon line that does not unpack
into exactly two fields, or whose score `int` refuses, gives a
`LexiconError` that names the line (counted from 0) and the reason. A path
whose only slash is its last character makes `locations[-2]` raise
IndexError; here that is the `PathError` `NoSecondToLastSlash`.

The moving average has `max(W, N)` entries, where N is the number of
scores. It is not always N, because the code appends W zeros before the
first average whatever N is. So with W > N the list is W zeros and is
longer than the word list. The model follows the code.

## Model

| member | source | states |
|---|---|---|
| `Lexicon.ParseLine` | sentiment.py:67-69 | The model of one line's split, unpacking, `rstrip` and `int` (no ensures of its own). `ParseLineShape` and `ParseLineOf` state together when it succeeds and with what, `LineWithoutTab` its error. |
| `Lexicon.Collect` | sentiment.py:65-69 | The model of the storing loop over the parsed lines, stopping at the first error (no ensures of its own). `CollectErrors`, `CollectErrorPersists`, `CollectKeys`, `CollectLastWins` and `CollectOne` state its behaviour. |
| `Lexicon.ParseLexicon` | sentiment.py:65-69 | The dictionary the loaders build, as `Collect` over the parsed lines (no ensures of its own). `ParseLexiconErrors`, `ParseLexiconKeys`, `LastLineWins` and `SingleLineLexicon` state its behaviour. |
| `Lexicon.ReadSentimentFile` | sentiment.py:65-69 | The loading loop returns the dictionary `ParseLexicon` defines, or the error at the first bad line. |
| `Lexicon.ParseLineShape` | sentiment.py:67-69 | A line fails on its field count exactly when it does not hold exactly one tab, and the count reported is the tab count plus one. A line that parses is its term, then one tab, then score text that reads as the score once its trailing newlines are gone. |
| `Lexicon.ParseLineOf` | sentiment.py:67-69 | Conversely, every line holding one tab whose score text `int` accepts after its trailing newlines are dropped parses to its term and that integer, whatever the spelling (`+3`, `03`, `-0`). |
| `Lexicon.SignedScoreLine` | sentiment.py:67-69 | The line `good\t+03\n` loads as `good` with score 3, as Python's `int` reads it. |
| `Lexicon.ParseLineOfWritten` | sentiment.py:67-69 | A line written as term, tab, `str(score)` and any run of newlines reads back as exactly that term and score. |
| `Lexicon.ParseFormatLine` | sentiment.py:67-69 | A line in the file's own format (`term\tscore\n`) parses back to its entry. |
| `Lexicon.CollectOne` | sentiment.py:65-69 | A file of one line gives that line's entry alone, or that line's error at line 0. |
| `Lexicon.CollectErrors` | sentiment.py:65-69 | Folding the line results succeeds exactly when every line succeeded. When it fails, it reports the first failed line and that line's reason. |
| `Lexicon.CollectErrorPersists` | sentiment.py:65-69 | Once a prefix of the line results has failed, later lines do not change the outcome. |
| `Lexicon.CollectKeys` | sentiment.py:65-69 | The keys of the folded dictionary are exactly the terms of the entries among the line results. |
| `Lexicon.CollectLastWins` | sentiment.py:69 | A term maps to the score of the last entry that names it. |
| `Lexicon.ParseLexiconErrors` | sentiment.py:65-69 | Loading succeeds exactly when every line parses. When it fails, the error names the first line that does not parse and gives that line's reason. |
| `Lexicon.ParseLexiconErrorPersists` | sentiment.py:65-69 | Once a prefix of the lines has failed, no later line changes the outcome. The exception ends the loop. |
| `Lexicon.ParseLexiconKeys` | sentiment.py:65-69 | The keys of the loaded dictionary are exactly the terms of the file's lines that parse. |
| `Lexicon.LastLineWins` | sentiment.py:69 | A term maps to the score on the last line that names it, so a later duplicate overwrites an earlier one. |
| `Lexicon.SingleLineLexicon` | sentiment.py:65-69 | A file of one written line `term\tscore\n` loads as the dictionary holding that term and score alone. |
| `Lexicon.LineWithoutTab` | sentiment.py:67 | A line without a tab fails as a single field at line 0. |
| `Integers.ParseInt` | sentiment.py:69 | `int` accepts only text that ends in a digit and has no non-digit after the first character. A negative result needs a leading `-`. |
| `Integers.FormatIntChars` | sentiment.py:69 | `str` does not occur at line 69; it is written here as the inverse of its `int` call for the round-trip proof. `str(n)` is made of digits, with a leading `-` when n is negative, and ends in a digit. |
| `Integers.FormatNat` | sentiment.py:69 | The inverse of line 69's `int`, for the round-trip proof (`str` itself does not occur there): `str` of a natural number is a non-empty string of digits. |
| `Integers.DigitsValueOfFormatNat` | sentiment.py:69 | The digits `str` writes for n have the value n. |
| `Integers.ParseFormatInt` | sentiment.py:69 | `int(str(n)) == n` for every integer n, negatives included. |
| `Text.SplitOn` | sentiment.py:67 | `s.split(sep)` gives fields that contain no separator and that, joined with the separator, give back s. |
| `Text.SplitOnCount` | sentiment.py:67 | `s.split(sep)` has one more field than s has separators. |
| `Text.SplitOnField` | sentiment.py:67 | A separator-free prefix followed by the separator becomes the first field. |
| `Text.SplitOnNoSeparator` | sentiment.py:67 | A string without the separator splits into itself alone. |
| `Text.SplitOnJoin` | sentiment.py:67 | Splitting undoes joining non-empty lists of separator-free fields. |
| `Text.Strip` | sentiment.py:136 | `strip()` with Python 2's whitespace set, as `LStripChars` then `RStripChars` (no ensures of its own). `WordsOfStrip` states that `strip().split()` is `split()`. |
| `Text.RStripChars` | sentiment.py:68 | `rstrip(chars)` keeps a prefix of s. Everything it removes is in chars, and the kept prefix does not end in one of them. |
| `Text.RStripCharsAppended` | sentiment.py:68 | `rstrip` removes exactly a trailing run of the stripped characters. |
| `Text.LStripChars` | sentiment.py:136 | `lstrip(chars)` is no longer than s, and what remains does not start with one of chars. |
| `Text.LStripCharsDropsPrefix` | sentiment.py:136 | What `lstrip` removes is a prefix made only of the stripped characters, and what remains is the rest of s. |
| `Text.LeadingWord` | sentiment.py:136 | The first word is the longest whitespace-free prefix, and a whitespace character follows it when anything does. |
| `Text.Words` | sentiment.py:136 | `split()` gives non-empty words without whitespace. |
| `Text.LeadingWordOf` | sentiment.py:136 | A whitespace-free w followed by whitespace, or by nothing, is the first word. |
| `Text.WordsSkipsSpace` | sentiment.py:136 | A leading whitespace character does not change `split()`. |
| `Text.WordsOfWordThen` | sentiment.py:136 | A non-empty, whitespace-free word followed by whitespace, or by nothing, is the first word, and the rest splits on its own. |
| `Text.WordsOfJoin` | sentiment.py:136 | `split()` undoes joining non-empty, whitespace-free words with spaces. |
| `Text.WordsOfLStrip` | sentiment.py:136 | Leading whitespace does not change `split()`. |
| `Text.LStripAllSpace` | sentiment.py:136 | `lstrip` of a string made only of whitespace is empty. |
| `Text.LStripAppended` | sentiment.py:136 | When `lstrip` leaves something of s, appending text to s does not change what it removes. |
| `Text.WordsOfSpaceAppended` | sentiment.py:136 | Trailing whitespace does not change `split()`. |
| `Text.WordsOfStrip` | sentiment.py:136 | `line.strip().split()` equals `line.split()`. |
| `Text.RemovePunctuation` | sentiment.py:146 | `re.sub(r'[^\w\s]', '', s)` never lengthens s. |
| `Text.RemovePunctuationKeeps` | sentiment.py:146 | Every character the filter keeps is a word or whitespace character of s. |
| `Text.RemovePunctuationConcat` | sentiment.py:146 | The filter distributes over concatenation. |
| `Text.RemovePunctuationUnchanged` | sentiment.py:146 | A string is unchanged exactly when it has only word and whitespace characters. |
| `Text.RemoveTrailingMark` | sentiment.py:146 | A word followed by one punctuation mark loses only the mark. |
| `Text.RemovePunctuationAllPunctuation` | sentiment.py:146 | A unit made only of punctuation becomes the empty string. |
| `Tokenizer.Tokenize` | sentiment.py:136-146 | The token list `textToList` returns (no ensures of its own). `TextToList` is proved equal to it; `TokenCount`, `TokenAt`, `TokenizeAppend` and `TokensAreWordCharacters` state its behaviour. |
| `Tokenizer.TextToList` | sentiment.py:136-146 | The strip-split, flatten and in-place rewrite produce the token list `Tokenize` defines. |
| `Tokenizer.StripPunctuationAppend` | sentiment.py:145-146 | Filtering a list of units entry by entry distributes over concatenation. |
| `Tokenizer.FlattenAppend` | sentiment.py:140-143 | Flattening two lists of line-lists is flattening each and concatenating, in order. |
| `Tokenizer.FlattenNoSpace` | sentiment.py:140-143 | Every entry of the flattened list is an entry of some line-list, so whitespace-free entries stay whitespace-free. |
| `Tokenizer.UnitsAppend` | sentiment.py:140-143 | The units of two runs of lines are the units of each, in order. |
| `Tokenizer.TokenizeAppend` | sentiment.py:136-146 | Tokenizing a document is tokenizing its parts and concatenating the results. |
| `Tokenizer.UnitsOfLine` | sentiment.py:136 | The units of one line are its `split()` words. |
| `Tokenizer.TokenCount` | sentiment.py:136-143 | There are as many tokens as whitespace-delimited units in all the lines. |
| `Tokenizer.TokenAt` | sentiment.py:136-146 | Unit u of line j becomes token number (units before line j) + u, with its punctuation removed. |
| `Tokenizer.UnitAt` | sentiment.py:140-143 | Unit u of line j comes right after all the units of the earlier lines in the flattened list. |
| `Tokenizer.UnitsHaveNoSpace` | sentiment.py:136-143 | No unit contains whitespace. |
| `Tokenizer.TokensAreWordCharacters` | sentiment.py:145-146 | Every token is made of word characters only, possibly none. |
| `Tokenizer.TokenizeLine` | sentiment.py:136-146 | One line tokenizes to the filtered forms of its words, position by position. |
| `Tokenizer.SentenceWords` | sentiment.py:136 | `I feel great! Really great.` splits into `I`, `feel`, `great!`, `Really` and `great.`. |
| `Tokenizer.SentenceJoined` | sentiment.py:136 | The five example units joined by single spaces give back `I feel great! Really great.`. |
| `Tokenizer.SentenceUnitsAreWords` | sentiment.py:136 | Each of the five example units is non-empty and holds no whitespace. |
| `Tokenizer.PlainWord` | sentiment.py:146 | The example words `I`, `feel`, `Really`, `Fine` and `good` hold no punctuation and come through unchanged. |
| `Tokenizer.GreatWithMark` | sentiment.py:146 | `great!` and `great.` lose their mark and nothing else. |
| `Tokenizer.TokenizeSentence` | sentiment.py:136-146 | `I feel great! Really great.` tokenizes to `I`, `feel`, `great`, `Really` and `great`. |
| `Tokenizer.PunctuationUnitKept` | sentiment.py:145-146 | In `Fine - good` the lone `-` is kept as an empty token, so the result is `Fine`, the empty string and `good`. |
| `Scorer.ScoreTextWordList` | sentiment.py:157-163 | One score per word, in order: the lexicon value for a key, otherwise 0. |
| `Scorer.PositiveWordsScore` | sentiment.py:286-296 | One entry per word, each at least 0: the word's score where it is positive, otherwise 0. |
| `Scorer.NegativeWordsScore` | sentiment.py:300-310 | One entry per word, each at most 0: the word's score where it is negative, otherwise 0. |
| `Scorer.Score` | sentiment.py:159-162 | A word's score: its lexicon value when it is a key, otherwise 0 (no ensures of its own). `ScoreTextWordList` and `ScoreWithin` state its use and bound. |
| `Scorer.PositivePart` | sentiment.py:290-293 | What the positive-only filter keeps of a score (no ensures of its own). `SignSplit` states its properties. |
| `Scorer.NegativePart` | sentiment.py:304-307 | What the negative-only filter keeps of a score (no ensures of its own). `SignSplit` states its properties. |
| `Scorer.SignSplit` | sentiment.py:290-305 | The positive and the negative filter split a score into parts that add up to it, and at most one part is non-zero. |
| `Scorer.ScoreBySign` | sentiment.py:286-310 | Over the same words, the full list holds each word's lexicon score, the positive-only and negative-only lists hold its positive and negative parts, and the two add up, position by position, to the full score list. |
| `Scorer.ScoreWithin` | sentiment.py:158-162 | When all lexicon scores lie in a range around 0, so does every word's score, unknown words included. |
| `MovingAverage.FindMovAvgScore` | sentiment.py:173-180 | The result has max(W, N) entries. The first W are 0. For W <= i < N, entry i is the mean of the W scores just before i, with i excluded. When W >= N, every entry is 0. |
| `MovingAverage.Mean` | sentiment.py:178 | `np.mean` of a non-empty window, in exact `real` arithmetic (no ensures of its own). `MeanWithin` bounds it and `FindMovAvgScore` uses it for every window. |
| `MovingAverage.SumAppend` | sentiment.py:178 | The sum of a concatenation is the sum of its parts. |
| `MovingAverage.SlidingMean` | sentiment.py:176-179 | An aside about `Mean`, not a step the script takes (it recomputes `np.mean` over each slice): each average is the previous one plus (scores[i] - scores[i-W]) / W. |
| `MovingAverage.SumWithin` | sentiment.py:178 | A sum of n scores in lo..hi lies in lo*n..hi*n. |
| `MovingAverage.MeanWithin` | sentiment.py:178 | An average never leaves the range of the scores it averages. |
| `Sequences.Positions` | sentiment.py:100 | Every position listed for x is an index of s that holds x. |
| `Sequences.PositionsIncreasing` | sentiment.py:100 | The positions are listed in strictly increasing order. |
| `Sequences.PositionsComplete` | sentiment.py:100 | Every index that holds x is listed. |
| `Sequences.PositionsCount` | sentiment.py:100 | There is exactly one position per occurrence of x. |
| `Sequences.NothingAfterLastPosition` | sentiment.py:100 | No occurrence lies after the last position found. |
| `Sequences.NothingBetweenLastTwoPositions` | sentiment.py:100-106 | No occurrence lies strictly between the last two positions. |
| `Locate.LocateWord` | sentiment.py:277-282 | The appending loop returns exactly the indices where the word occurs, in strictly increasing order. |
| `Paths.SplitFilePath` | sentiment.py:100-111 | The directory and name `checkFileAvailability` computes, or the IndexError of a lone trailing slash (no ensures of its own). `SplitBareName`, `SplitFilePathFails`, `SplitAtLastSlash` and `SplitWithTrailingSlash` state its behaviour. |
| `Paths.SplitBareName` | sentiment.py:101-102 | A name without a slash is looked up unchanged in the current directory. |
| `Paths.SplitFilePathFails` | sentiment.py:100-106 | The split fails exactly when the path ends in a slash and holds no other slash. |
| `Paths.SlashesFound` | sentiment.py:100-101 | A path holding a slash has at least one slash position. |
| `Paths.NoSlashAfterLast` | sentiment.py:108-111 | The text after the last slash holds no slash. |
| `Paths.SplitAtLastSlash` | sentiment.py:108-111 | Without a trailing slash, the path is the directory, a slash and the name, and the name holds no slash. |
| `Paths.LastSlashIsTrailing` | sentiment.py:103 | In a path that ends in a slash, that slash is the last slash position. |
| `Paths.NoSlashBetweenLastTwo` | sentiment.py:103-106 | The text between the last two slashes holds no slash. |
| `Paths.SplitWithTrailingSlash` | sentiment.py:103-106 | With a trailing slash and another slash before it, the path is the directory, a slash, the name and the trailing slash, and the name holds no slash. |
| `Pipeline.Analyze` | sentiment.py:343-346 | A malformed lexicon stops the run with the loader's error. Otherwise each token gets its lexicon score and the averages have max(W, N) entries: the first W are the 0 placeholders (so all of them when W >= N), and each later one is the mean of the W scores before it. With an AFINN-range lexicon every average lies within -5..5. |

## Left out

- Fetching the AFINN list from its URL (`urllib.urlopen`), opening and reading files, `os.listdir` and `os.getcwd`: all I/O. Their results are inputs here, as lines of text and a current-directory string.
- The membership test and the messages of `checkFileAvailability`: its `print` calls and the `os.listdir` lookup. Only the directory and name it computes are modelled.
- `plotScoreMA`, `printText`, `saveText`, `showSentWords` and `printWordScoreOverRange`: plotting and console or file output that depends on float formatting and the current date.
- MovingAverage.FindMovAvgScore: the default period of 550 in the signature of `findMovAvgScore` is not modelled; the period is always a parameter here, as the script always passes one.
- The top-level script's `argv` handling and its call to `plotScoreMA` and `printText`. `Pipeline.Analyze` covers the four calls before them.
- MovingAverage.FindMovAvgScore: `np.mean` computes in floating point. The model uses exact rational (`real`) division, so rounding is not modelled.
- Pipeline.Analyze: inherits the period requirement of `FindMovAvgScore` (at least 1, although the script passes `int(argv[1])` unchecked) and its exact `real` mean in place of floating point.
- MovingAverage.FindMovAvgScore: requires a period of at least 1. With a period of 0 every window slice is empty and `np.mean` gives NaN, which has no counterpart in `real`. A negative period makes Python read the slices with negative indices from the end of the list, a case the script never means to meet.
- Text.RemovePunctuation: `\w` and `\s` are taken in their ASCII (Python 2 byte string) meaning. Unicode and locale-dependent classes are not modelled.
- Integers.ParseInt: Python's `int` also accepts whitespace around the digits. The model accepts only an optional sign followed by ASCII digits, which is the form of every AFINN score. So a score such as `3\r`, from a file with CRLF line ends, is refused here although Python reads it as 3.
- The IndexError of `checkFileAvailability` on a lone trailing slash ends the source with an exception. Here it is the value `Paths.NoSecondToLastSlash`.
