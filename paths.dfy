/** The pure part of `checkFileAvailability`: where the directory of a path
    ends and its file name begins. The directory listing that follows is
    left to the caller; the current working directory is a parameter. */
module Paths {
  import opened Results
  import opened Sequences

  const Slash: char := '/'

  datatype Location = Location(dir: string, name: string)

  /** `locations[-2]` on a list of one slash position raises IndexError. */
  datatype PathError = NoSecondToLastSlash

  predicate EndsWithSlash(path: string) {
    |path| > 0 && path[|path| - 1] == Slash
  }

  /** A bare name is looked up in cwd; otherwise the name follows the last
      slash, or, when the path ends in a slash, lies between the last two. */
  function SplitFilePath(fileName: string, cwd: string): Result<Location, PathError> {
    var locations := Positions(fileName, Slash);
    PositionsIncreasing(fileName, Slash);
    if |locations| == 0 then
      Ok(Location(cwd, fileName))
    else if |fileName| - 1 == locations[|locations| - 1] then
      if |locations| < 2 then Err(NoSecondToLastSlash)
      else
        var endString := locations[|locations| - 2];
        Ok(Location(fileName[0..endString], fileName[locations[|locations| - 2] + 1..locations[|locations| - 1]]))
    else
      var endString := locations[|locations| - 1];
      Ok(Location(fileName[0..endString], fileName[locations[|locations| - 1] + 1..]))
  }

  /** A name without a slash is looked up in the working directory. */
  lemma SplitBareName(fileName: string, cwd: string)
    requires Slash !in fileName
    ensures SplitFilePath(fileName, cwd) == Ok(Location(cwd, fileName))
  {
    PositionsCount(fileName, Slash);
    assert multiset(fileName)[Slash] == 0;
  }

  /** The split fails only on a path whose one slash is its last character. */
  lemma SplitFilePathFails(fileName: string, cwd: string)
    ensures SplitFilePath(fileName, cwd).Err? <==> EndsWithSlash(fileName) && multiset(fileName)[Slash] == 1
  {
    var locations := Positions(fileName, Slash);
    PositionsCount(fileName, Slash);
    PositionsComplete(fileName, Slash);
    if EndsWithSlash(fileName) {
      assert |fileName| - 1 in locations;
      assert |locations| > 0;
      NothingAfterLastPosition(fileName, Slash);
    }
  }

  /** A sequence taken apart around one of its elements. */
  lemma Recompose<T>(s: seq<T>, k: nat)
    requires k < |s|
    ensures s == s[..k] + [s[k]] + s[k + 1..]
  {
  }

  lemma SlashesFound(fileName: string)
    requires Slash in fileName
    ensures |Positions(fileName, Slash)| > 0
  {
    var i :| 0 <= i < |fileName| && fileName[i] == Slash;
    PositionsComplete(fileName, Slash);
    assert i in Positions(fileName, Slash);
  }

  /** The text after the last slash holds no slash. */
  lemma NoSlashAfterLast(fileName: string)
    requires |Positions(fileName, Slash)| > 0
    ensures var r := Positions(fileName, Slash);
      Slash !in fileName[r[|r| - 1] + 1..]
  {
    var r := Positions(fileName, Slash);
    NothingAfterLastPosition(fileName, Slash);
    var name := fileName[r[|r| - 1] + 1..];
    assert forall j :: 0 <= j < |name| ==> name[j] == fileName[r[|r| - 1] + 1 + j];
  }

  /** Without a trailing slash, the name is what follows the last slash. */
  lemma SplitAtLastSlash(fileName: string, cwd: string)
    requires Slash in fileName && !EndsWithSlash(fileName)
    ensures var r := SplitFilePath(fileName, cwd);
      r.Ok? && fileName == r.value.dir + [Slash] + r.value.name && Slash !in r.value.name
  {
    SlashesFound(fileName);
    var r := Positions(fileName, Slash);
    var last := r[|r| - 1];
    NoSlashAfterLast(fileName);
    Recompose(fileName, last);
  }

  /** The text between the last two slashes holds no slash. */
  lemma NoSlashBetweenLastTwo(fileName: string)
    requires var r := Positions(fileName, Slash); |r| >= 2 && r[|r| - 2] < r[|r| - 1]
    ensures var r := Positions(fileName, Slash);
      Slash !in fileName[r[|r| - 2] + 1..r[|r| - 1]]
  {
    var r := Positions(fileName, Slash);
    NothingBetweenLastTwoPositions(fileName, Slash);
    var name := fileName[r[|r| - 2] + 1..r[|r| - 1]];
    assert forall j :: 0 <= j < |name| ==> name[j] == fileName[r[|r| - 2] + 1 + j];
  }

  /** A path ending in a slash has that slash as its last position. */
  lemma LastSlashIsTrailing(fileName: string)
    requires EndsWithSlash(fileName)
    ensures var r := Positions(fileName, Slash);
      |r| > 0 && r[|r| - 1] == |fileName| - 1
  {
    var r := Positions(fileName, Slash);
    PositionsComplete(fileName, Slash);
    assert |fileName| - 1 in r;
    NothingAfterLastPosition(fileName, Slash);
  }

  /** A sequence taken apart around two of its elements, the second its last. */
  lemma RecomposeAroundTwo<T>(s: seq<T>, k: nat)
    requires k < |s| - 1
    ensures s == s[..k] + [s[k]] + s[k + 1..|s| - 1] + [s[|s| - 1]]
  {
  }

  lemma SplitTrailingResult(fileName: string, cwd: string)
    requires EndsWithSlash(fileName) && |Positions(fileName, Slash)| >= 2
    requires Positions(fileName, Slash)[|Positions(fileName, Slash)| - 1] == |fileName| - 1
    ensures var r := Positions(fileName, Slash);
      SplitFilePath(fileName, cwd) == Ok(Location(fileName[..r[|r| - 2]], fileName[r[|r| - 2] + 1..|fileName| - 1]))
  {
  }

  /** With a trailing slash, the name lies between the last two slashes. */
  lemma SplitWithTrailingSlash(fileName: string, cwd: string)
    requires EndsWithSlash(fileName) && multiset(fileName)[Slash] != 1
    ensures var r := SplitFilePath(fileName, cwd);
      r.Ok? && fileName == r.value.dir + [Slash] + r.value.name + [Slash] && Slash !in r.value.name
  {
    LastSlashIsTrailing(fileName);
    var r := Positions(fileName, Slash);
    PositionsCount(fileName, Slash);
    PositionsIncreasing(fileName, Slash);
    SplitTrailingResult(fileName, cwd);
    NoSlashBetweenLastTwo(fileName);
    RecomposeAroundTwo(fileName, r[|r| - 2]);
  }
}
