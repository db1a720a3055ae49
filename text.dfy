/** The string built-ins the script relies on, for Python 2 byte strings:
    `str.split(sep)`, `str.split()`, `str.strip()`, `str.rstrip(chars)` and
    `re.sub(r'[^\w\s]', '', s)`. */
module Text {

  /** The characters Python 2's `str.isspace` accepts: space, tab, line
      feed, vertical tab, form feed and carriage return. */
  const Whitespace: set<char> := {' ', '\t', '\n', '\U{000B}', '\U{000C}', '\r'}

  predicate IsSpace(c: char) {
    c in Whitespace
  }

  /** `\w` for a pattern compiled without the UNICODE flag: ASCII letters,
      digits and the underscore. */
  predicate IsWordChar(c: char) {
    'a' <= c <= 'z' || 'A' <= c <= 'Z' || '0' <= c <= '9' || c == '_'
  }

  predicate NoSpace(s: string) {
    forall i :: 0 <= i < |s| ==> !IsSpace(s[i])
  }

  predicate AllIn(s: string, chars: set<char>) {
    forall i :: 0 <= i < |s| ==> s[i] in chars
  }

  // ---------------------------------------------------------------------
  // str.split(sep) and its inverse, sep.join(fields)

  /** `sep.join(fields)`. */
  function Join(fields: seq<string>, sep: char): string {
    if fields == [] then ""
    else if |fields| == 1 then fields[0]
    else fields[0] + [sep] + Join(fields[1..], sep)
  }

  /** `s.split(sep)` for a one-character separator: every occurrence of sep
      ends a field, so there is always one more field than separators and
      empty fields are kept. */
  function SplitOn(s: string, sep: char): (fields: seq<string>)
    ensures forall k :: 0 <= k < |fields| ==> sep !in fields[k]
    ensures Join(fields, sep) == s
  {
    if s == [] then [""]
    else
      var rest := SplitOn(s[1..], sep);
      if s[0] == sep then [""] + rest
      else [[s[0]] + rest[0]] + rest[1..]
  }

  /** There is one more field than there are separators. */
  lemma {:induction false} SplitOnCount(s: string, sep: char)
    ensures |SplitOn(s, sep)| == multiset(s)[sep] + 1
    decreases |s|
  {
    if s != [] {
      assert s == [s[0]] + s[1..];
      SplitOnCount(s[1..], sep);
    }
  }

  /** A field free of the separator followed by the separator opens one field. */
  lemma {:induction false} SplitOnField(a: string, sep: char, b: string)
    requires sep !in a
    ensures SplitOn(a + [sep] + b, sep) == [a] + SplitOn(b, sep)
    decreases |a|
  {
    if a == [] {
      assert a + [sep] + b == [sep] + b;
      assert ([sep] + b)[1..] == b;
    } else {
      var s := a + [sep] + b;
      assert s[1..] == a[1..] + [sep] + b;
      SplitOnField(a[1..], sep, b);
      assert [a[0]] + a[1..] == a;
    }
  }

  /** A string free of the separator is a single field. */
  lemma {:induction false} SplitOnNoSeparator(a: string, sep: char)
    requires sep !in a
    ensures SplitOn(a, sep) == [a]
    decreases |a|
  {
    if a != [] {
      SplitOnNoSeparator(a[1..], sep);
      assert [a[0]] + a[1..] == a;
    }
  }

  /** Splitting undoes joining fields that are free of the separator. */
  lemma {:induction false} SplitOnJoin(fields: seq<string>, sep: char)
    requires |fields| >= 1
    requires forall k :: 0 <= k < |fields| ==> sep !in fields[k]
    ensures SplitOn(Join(fields, sep), sep) == fields
    decreases |fields|
  {
    if |fields| == 1 {
      SplitOnNoSeparator(fields[0], sep);
    } else {
      SplitOnField(fields[0], sep, Join(fields[1..], sep));
      SplitOnJoin(fields[1..], sep);
      assert [fields[0]] + fields[1..] == fields;
    }
  }

  // ---------------------------------------------------------------------
  // str.lstrip / str.rstrip / str.strip

  /** `s.lstrip(chars)`: the leading characters drawn from chars removed. */
  function LStripChars(s: string, chars: set<char>): (r: string)
    ensures |r| <= |s|
    ensures r == [] || r[0] !in chars
  {
    if s != [] && s[0] in chars then LStripChars(s[1..], chars) else s
  }

  /** What lstrip removes is a prefix made only of chars. */
  lemma {:induction false} LStripCharsDropsPrefix(s: string, chars: set<char>)
    ensures var r := LStripChars(s, chars);
      r == s[|s| - |r|..] && AllIn(s[..|s| - |r|], chars)
    decreases |s|
  {
    if s != [] && s[0] in chars {
      LStripCharsDropsPrefix(s[1..], chars);
    }
  }

  /** `s.rstrip(chars)`: the trailing characters drawn from chars removed. */
  function RStripChars(s: string, chars: set<char>): (r: string)
    ensures |r| <= |s| && r == s[..|r|]
    ensures AllIn(s[|r|..], chars)
    ensures r == [] || r[|r| - 1] !in chars
  {
    if s != [] && s[|s| - 1] in chars then RStripChars(s[..|s| - 1], chars) else s
  }

  /** `s.strip()`. */
  function Strip(s: string): string {
    RStripChars(LStripChars(s, Whitespace), Whitespace)
  }

  /** Stripping removes exactly the trailing run of chars: a string with
      chars appended strips back to itself. */
  lemma {:induction false} RStripCharsAppended(s: string, tail: string, chars: set<char>)
    requires s == [] || s[|s| - 1] !in chars
    requires AllIn(tail, chars)
    ensures RStripChars(s + tail, chars) == s
    decreases |tail|
  {
    if tail != [] {
      var t := s + tail;
      assert t[..|t| - 1] == s + tail[..|tail| - 1];
      RStripCharsAppended(s, tail[..|tail| - 1], chars);
    } else {
      assert s + tail == s;
    }
  }

  // ---------------------------------------------------------------------
  // str.split() with no argument

  /** The longest prefix of s that holds no whitespace. */
  function LeadingWord(s: string): (w: string)
    ensures |w| <= |s| && w == s[..|w|] && NoSpace(w)
    ensures |w| < |s| ==> IsSpace(s[|w|])
  {
    if s != [] && !IsSpace(s[0]) then [s[0]] + LeadingWord(s[1..]) else []
  }

  /** `s.split()`: the maximal runs of non-whitespace characters, in order;
      no field is empty and none holds whitespace. */
  function Words(s: string): (ws: seq<string>)
    ensures forall k :: 0 <= k < |ws| ==> ws[k] != [] && NoSpace(ws[k])
    decreases |s|
  {
    var t := LStripChars(s, Whitespace);
    if t == [] then []
    else
      var w := LeadingWord(t);
      [w] + Words(t[|w|..])
  }

  lemma {:induction false} LeadingWordOf(w: string, rest: string)
    requires NoSpace(w)
    requires rest == [] || IsSpace(rest[0])
    ensures LeadingWord(w + rest) == w
    decreases |w|
  {
    if w == [] {
      assert w + rest == rest;
    } else {
      assert (w + rest)[1..] == w[1..] + rest;
      LeadingWordOf(w[1..], rest);
      assert [w[0]] + w[1..] == w;
    }
  }

  lemma {:induction false} WordsSkipsSpace(c: char, s: string)
    requires IsSpace(c)
    ensures Words([c] + s) == Words(s)
  {
    assert ([c] + s)[1..] == s;
    assert LStripChars([c] + s, Whitespace) == LStripChars(s, Whitespace);
  }

  /** A word followed by whitespace, or by nothing, is the first word. */
  lemma WordsOfWordThen(w: string, rest: string)
    requires w != [] && NoSpace(w)
    requires rest == [] || IsSpace(rest[0])
    ensures Words(w + rest) == [w] + Words(rest)
  {
    var t := w + rest;
    assert t[0] == w[0];
    assert LStripChars(t, Whitespace) == t;
    LeadingWordOf(w, rest);
    assert t[|w|..] == rest;
  }

  /** Splitting on whitespace undoes joining non-empty, whitespace-free
      words with single spaces. */
  lemma {:induction false} WordsOfJoin(ws: seq<string>)
    requires forall k :: 0 <= k < |ws| ==> ws[k] != [] && NoSpace(ws[k])
    ensures Words(Join(ws, ' ')) == ws
    decreases |ws|
  {
    if ws == [] {
      assert LStripChars("", Whitespace) == "";
    } else if |ws| == 1 {
      WordsOfWordThen(ws[0], "");
      assert ws[0] + "" == ws[0];
      assert LStripChars("", Whitespace) == "";
    } else {
      var w := ws[0];
      var joined := Join(ws[1..], ' ');
      assert Join(ws, ' ') == w + ([' '] + joined);
      WordsOfWordThen(w, [' '] + joined);
      WordsSkipsSpace(' ', joined);
      WordsOfJoin(ws[1..]);
      assert [w] + ws[1..] == ws;
    }
  }

  /** Leading whitespace does not change the words. */
  lemma WordsOfLStrip(s: string)
    ensures Words(LStripChars(s, Whitespace)) == Words(s)
  {
    var t := LStripChars(s, Whitespace);
    assert LStripChars(t, Whitespace) == t;
  }

  lemma {:induction false} LStripAllSpace(s: string)
    requires AllIn(s, Whitespace)
    ensures LStripChars(s, Whitespace) == []
    decreases |s|
  {
    if s != [] {
      LStripAllSpace(s[1..]);
    }
  }

  lemma {:induction false} LStripAppended(s: string, tail: string)
    requires LStripChars(s, Whitespace) != []
    ensures LStripChars(s + tail, Whitespace) == LStripChars(s, Whitespace) + tail
    decreases |s|
  {
    assert s != [];
    if IsSpace(s[0]) {
      assert (s + tail)[1..] == s[1..] + tail;
      LStripAppended(s[1..], tail);
    }
  }

  /** Trailing whitespace does not change the words. */
  lemma {:induction false} WordsOfSpaceAppended(s: string, tail: string)
    requires AllIn(tail, Whitespace)
    ensures Words(s + tail) == Words(s)
    decreases |s|
  {
    var t := LStripChars(s, Whitespace);
    if t == [] {
      assert AllIn(s, Whitespace) by {
        LStripCharsDropsPrefix(s, Whitespace);
        assert s[..|s|] == s;
      }
      LStripAllSpace(s + tail);
      LStripAllSpace(s);
    } else {
      LStripAppended(s, tail);
      var w := LeadingWord(t);
      var after := t[|w|..] + tail;
      assert t + tail == w + after;
      LeadingWordOf(w, after);
      assert (t + tail)[|w|..] == after;
      WordsOfSpaceAppended(t[|w|..], tail);
    }
  }

  /** `line.strip().split()` is `line.split()`: the strip the tokenizer
      applies first changes nothing. */
  lemma WordsOfStrip(s: string)
    ensures Words(Strip(s)) == Words(s)
  {
    var t := LStripChars(s, Whitespace);
    var r := RStripChars(t, Whitespace);
    assert t == r + t[|r|..];
    WordsOfSpaceAppended(r, t[|r|..]);
    WordsOfLStrip(s);
  }

  // ---------------------------------------------------------------------
  // re.sub(r'[^\w\s]', '', s)

  /** Whether the pattern `[^\w\s]` leaves c in place. */
  predicate SurvivesPunctuationFilter(c: char) {
    IsWordChar(c) || IsSpace(c)
  }

  /** `re.sub(r'[^\w\s]', '', s)`: every character that is neither a word
      character nor whitespace deleted, the others kept in order. */
  function RemovePunctuation(s: string): (r: string)
    ensures |r| <= |s|
  {
    if s == [] then ""
    else (if SurvivesPunctuationFilter(s[0]) then [s[0]] else "") + RemovePunctuation(s[1..])
  }

  /** What the filter keeps are word and whitespace characters of s. */
  lemma {:induction false} RemovePunctuationKeeps(s: string)
    ensures forall i :: 0 <= i < |RemovePunctuation(s)| ==>
      SurvivesPunctuationFilter(RemovePunctuation(s)[i]) && RemovePunctuation(s)[i] in s
    decreases |s|
  {
    if s != [] {
      RemovePunctuationKeeps(s[1..]);
    }
  }

  /** The filter works character by character, so it distributes over
      concatenation. */
  lemma {:induction false} RemovePunctuationConcat(a: string, b: string)
    ensures RemovePunctuation(a + b) == RemovePunctuation(a) + RemovePunctuation(b)
    decreases |a|
  {
    if a == [] {
      assert a + b == b;
    } else {
      var keep := if SurvivesPunctuationFilter(a[0]) then [a[0]] else "";
      var ab := a + b;
      assert ab[0] == a[0] && ab[1..] == a[1..] + b;
      assert RemovePunctuation(ab) == keep + RemovePunctuation(a[1..] + b);
      RemovePunctuationConcat(a[1..], b);
      assert keep + (RemovePunctuation(a[1..]) + RemovePunctuation(b))
          == (keep + RemovePunctuation(a[1..])) + RemovePunctuation(b);
    }
  }

  /** A string is left unchanged exactly when it holds no punctuation. */
  lemma {:induction false} RemovePunctuationUnchanged(s: string)
    ensures RemovePunctuation(s) == s <==> forall i :: 0 <= i < |s| ==> SurvivesPunctuationFilter(s[i])
    decreases |s|
  {
    if s != [] {
      RemovePunctuationUnchanged(s[1..]);
      if SurvivesPunctuationFilter(s[0]) {
        assert [s[0]] + s[1..] == s;
        assert (forall i :: 0 <= i < |s| ==> SurvivesPunctuationFilter(s[i]))
          <==> (forall i :: 0 <= i < |s[1..]| ==> SurvivesPunctuationFilter(s[1..][i]));
      } else {
        assert |RemovePunctuation(s)| < |s|;
      }
    }
  }

  /** A word with a punctuation mark after it loses only the mark. */
  lemma RemoveTrailingMark(w: string, mark: char)
    requires forall i :: 0 <= i < |w| ==> IsWordChar(w[i])
    requires !SurvivesPunctuationFilter(mark)
    ensures RemovePunctuation(w + [mark]) == w
  {
    RemovePunctuationConcat(w, [mark]);
    RemovePunctuationUnchanged(w);
    assert RemovePunctuation([mark]) == "";
  }

  /** A unit made only of punctuation becomes the empty string. */
  lemma {:induction false} RemovePunctuationAllPunctuation(s: string)
    requires forall i :: 0 <= i < |s| ==> !SurvivesPunctuationFilter(s[i])
    ensures RemovePunctuation(s) == ""
    decreases |s|
  {
    if s != [] {
      RemovePunctuationAllPunctuation(s[1..]);
    }
  }
}
