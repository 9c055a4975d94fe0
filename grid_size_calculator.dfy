/** src/utils/gridSizeCalculator.ts: the grid size a set of parsed puzzles
    needs, from the longest word across all of them. */
module GridSizeCalculator {

  import opened Text
  import opened Placement
  import opened CsvParser
  import WordUtils

  /** `MIN_GRID_SIZE` of src/utils/default_constants.ts. */
  const MinGridSize: int := 10

  /** `puzzles.flatMap(puzzle => puzzle.words)`: every word of every
      puzzle, in order. */
  function AllWords(puzzles: seq<CsvPuzzle>): seq<string>
  {
    if puzzles == [] then [] else puzzles[0].words + AllWords(puzzles[1..])
  }

  /** `findLongestWordLength(puzzles)`: `Math.max` of the trimmed lengths of
      the flattened words and `0`. */
  function FindLongestWordLength(puzzles: seq<CsvPuzzle>): nat
  {
    WordUtils.FindLongestWordLength(AllWords(puzzles))
  }

  /** A word sits in the flattened list exactly when it is a word of one of
      the puzzles. */
  lemma {:induction false} AllWordsMembers(puzzles: seq<CsvPuzzle>, w: string)
    ensures w in AllWords(puzzles) <==>
      exists j, i :: 0 <= j < |puzzles| && 0 <= i < |puzzles[j].words| && puzzles[j].words[i] == w
  {
    if puzzles != [] {
      AllWordsMembers(puzzles[1..], w);
      if w in puzzles[0].words {
        var i :| 0 <= i < |puzzles[0].words| && puzzles[0].words[i] == w;
        assert puzzles[0].words[i] == w;
      }
      if exists j, i :: 0 <= j < |puzzles| && 0 <= i < |puzzles[j].words| && puzzles[j].words[i] == w {
        var j, i :| 0 <= j < |puzzles| && 0 <= i < |puzzles[j].words| && puzzles[j].words[i] == w;
        if j > 0 {
          assert puzzles[1..][j - 1].words[i] == w;
        }
      }
      if exists j, i :: 0 <= j < |puzzles[1..]| && 0 <= i < |puzzles[1..][j].words| && puzzles[1..][j].words[i] == w {
        var j, i :| 0 <= j < |puzzles[1..]| && 0 <= i < |puzzles[1..][j].words| && puzzles[1..][j].words[i] == w;
        assert puzzles[j + 1].words[i] == w;
      }
    }
  }

  /** No word of any puzzle is longer, once trimmed, than the result. */
  lemma LongestPuzzleWordBound(puzzles: seq<CsvPuzzle>)
    ensures forall j, i :: 0 <= j < |puzzles| && 0 <= i < |puzzles[j].words| ==>
      |Trim(puzzles[j].words[i])| <= FindLongestWordLength(puzzles)
  {
    var r := FindLongestWordLength(puzzles);
    forall j, i | 0 <= j < |puzzles| && 0 <= i < |puzzles[j].words|
      ensures |Trim(puzzles[j].words[i])| <= r
    {
      AllWordsMembers(puzzles, puzzles[j].words[i]);
    }
  }

  /** The result is the trimmed length of some word of some puzzle, and 0
      when no puzzle has a word. */
  lemma LongestPuzzleWordAttained(puzzles: seq<CsvPuzzle>)
    ensures (forall j :: 0 <= j < |puzzles| ==> puzzles[j].words == []) ==> FindLongestWordLength(puzzles) == 0
    ensures (exists j :: 0 <= j < |puzzles| && puzzles[j].words != []) ==>
      exists j, i :: 0 <= j < |puzzles| && 0 <= i < |puzzles[j].words| &&
        FindLongestWordLength(puzzles) == |Trim(puzzles[j].words[i])|
  {
    var all := AllWords(puzzles);
    var r := FindLongestWordLength(puzzles);
    if all != [] {
      var k :| 0 <= k < |all| && r == |Trim(all[k])|;
      AllWordsMembers(puzzles, all[k]);
    } else if exists j :: 0 <= j < |puzzles| && puzzles[j].words != [] {
      var j :| 0 <= j < |puzzles| && puzzles[j].words != [];
      AllWordsMembers(puzzles, puzzles[j].words[0]);
    }
  }

  /** The pair `calculateMinGridSize` returns. */
  datatype GridSizes = GridSizes(minRequiredSize: int, newGridSize: int)

  /** `calculateMinGridSize(parsedPuzzles, currentGridSize)`: the size the
      longest word needs with two cells to spare, at least `MIN_GRID_SIZE`;
      and the current size, raised to that when smaller. */
  function CalculateMinGridSize(puzzles: seq<CsvPuzzle>, currentGridSize: int): (r: GridSizes)
    ensures r.minRequiredSize >= MinGridSize && r.minRequiredSize >= FindLongestWordLength(puzzles) + 2
    ensures r.minRequiredSize == MinGridSize || r.minRequiredSize == FindLongestWordLength(puzzles) + 2
    ensures r.newGridSize >= currentGridSize && r.newGridSize >= r.minRequiredSize
    ensures r.newGridSize == currentGridSize || r.newGridSize == r.minRequiredSize
  {
    var minRequiredSize := Max(MinGridSize, FindLongestWordLength(puzzles) + 2);
    GridSizes(minRequiredSize, Max(currentGridSize, minRequiredSize))
  }

  /** Every word of every puzzle fits in the new size with two cells to
      spare. */
  lemma NewSizeFitsEveryWord(puzzles: seq<CsvPuzzle>, currentGridSize: int)
    ensures forall j, i :: 0 <= j < |puzzles| && 0 <= i < |puzzles[j].words| ==>
      |Trim(puzzles[j].words[i])| + 2 <= CalculateMinGridSize(puzzles, currentGridSize).newGridSize
  {
    LongestPuzzleWordBound(puzzles);
  }

  /** A larger current size never gives a smaller new size. */
  lemma NewSizeMonotone(puzzles: seq<CsvPuzzle>, c1: int, c2: int)
    requires c1 <= c2
    ensures CalculateMinGridSize(puzzles, c1).newGridSize <= CalculateMinGridSize(puzzles, c2).newGridSize
  {
  }

  /** A current size that is already large enough is kept, so feeding the
      new size back in changes nothing. */
  lemma NewSizeStable(puzzles: seq<CsvPuzzle>, currentGridSize: int)
    ensures var r := CalculateMinGridSize(puzzles, currentGridSize);
      CalculateMinGridSize(puzzles, r.newGridSize) == r
  {
  }
}
