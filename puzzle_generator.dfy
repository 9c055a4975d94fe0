/** src/utils/puzzleGenerator.ts: `generatePuzzle`. It builds the grid,
    normalises the words and sorts them longest first, gives each word up to
    100 random candidate placements, records each placement, fills the rest
    of the grid, and reports every failure as a `PuzzleError`. */
module PuzzleGenerator {

  import opened Wrappers
  import opened Text
  import opened Types
  import opened WordValidation
  import opened LengthSort
  import opened WordPlacement
  import opened Placement
  import opened Grid

  /** `maxAttempts`: the candidate placements drawn per word. */
  const MaxAttempts: int := 100

  /** The fields of the configuration the generator reads. */
  datatype GeneratorConfig = GeneratorConfig(
    gridSize: int,
    words: seq<string>,
    directions: seq<Direction>,
    allowBackwards: bool)

  /** The generator's result: the filled grid and the placements, in order. */
  datatype Puzzle = Puzzle(grid: array2<Cell>, placedWords: seq<PlacedWord>)

  /** A non-`PuzzleError` raised inside the generator and wrapped by its
      `catch`: the `RangeError` of `Array(size)`, or, by the model's choice,
      the failure to draw a direction from an empty list. */
  datatype Cause = InvalidArrayLength | NoDirection

  /** The `PuzzleError`s `generatePuzzle` throws. */
  datatype PuzzleError =
    | NoValidWords
    | CouldNotPlace(word: string, attempts: int)
    | Wrapped(cause: Cause)

  /** The `i`-th cell a placed word covers, and the letter it holds there. */
  function PlacedCell(pw: PlacedWord, i: int): Position
  {
    WordCell(pw.startX, pw.startY, pw.direction, pw.isBackwards, i)
  }

  function PlacedLetter(pw: PlacedWord, i: int): char
    requires 0 <= i < |pw.word|
  {
    Letters(pw.word, pw.isBackwards)[i]
  }

  /** The placements are those of `words`, in order: the `k`-th records the
      `k`-th word under index `k`, in one of the allowed directions, and
      backwards only when that is allowed. */
  predicate PlacementsOf(pws: seq<PlacedWord>, words: seq<string>, directions: seq<Direction>, allowBackwards: bool)
  {
    |pws| == |words| &&
    forall k :: 0 <= k < |pws| ==>
      pws[k].word == words[k] && pws[k].index == k &&
      pws[k].direction in directions && (pws[k].isBackwards ==> allowBackwards)
  }

  /** Every placement can be read back from the grid where it was
      recorded. */
  ghost predicate AllRecorded(grid: array2<Cell>, pws: seq<PlacedWord>)
    requires grid.Length0 == grid.Length1
    reads grid
  {
    forall k :: 0 <= k < |pws| ==> Records(grid, pws[k])
  }

  /** Every cell holds one capital letter and its own coordinate. */
  ghost predicate Finished(grid: array2<Cell>)
    reads grid
  {
    forall y, x :: 0 <= y < grid.Length0 && 0 <= x < grid.Length1 ==>
      IsCapital(grid[y, x].letter) && grid[y, x].position == Position(x, y)
  }

  /** The `while (!placed && attempts < maxAttempts)` loop for one word: up
      to 100 times, draw a direction and a start, and place the word at the
      first candidate `canPlaceWord` accepts. `tries` is the number of
      candidates drawn. On failure the grid is untouched. */
  method TryPlaceWord(grid: array2<Cell>, word: string, wordIndex: int,
                      directions: seq<Direction>, allowBackwards: bool)
    returns (r: Result<PlacedWord, PuzzleError>, ghost tries: int)
    requires grid.Length0 == grid.Length1
    modifies grid
    ensures 1 <= tries <= MaxAttempts
    ensures r.Failure? ==> unchanged(grid)
    ensures directions == [] ==> r == Failure(Wrapped(NoDirection))
    ensures directions != [] && r.Failure? ==> r.error == CouldNotPlace(word, MaxAttempts) && tries == MaxAttempts
    ensures r.Success? ==>
      r.value.word == word && r.value.index == wordIndex &&
      r.value.direction in directions && (r.value.isBackwards ==> allowBackwards)
    ensures r.Success? ==>
      WordAt(grid, word, r.value.startX, r.value.startY, r.value.direction, r.value.isBackwards, wordIndex)
    ensures r.Success? ==> Extends(grid)
    ensures r.Success? && old(KnowsPositions(grid)) ==> KnowsPositions(grid)
    ensures r.Success? && old(HoldsCapitals(grid)) && (forall i :: 0 <= i < |word| ==> IsUpperLetter(word[i])) ==>
      HoldsCapitals(grid)
    ensures |word| > grid.Length0 ==> r.Failure?
    ensures old(IsBlank(grid)) && |word| <= grid.Length0 && directions != [] ==> r.Success? && tries == 1
  {
    ghost var blank := IsBlank(grid);
    var placed := false;
    var attempts := 0;
    var found := PlacedWord(word, 0, 0, Horizontal, wordIndex, false);
    while !placed && attempts < MaxAttempts
      invariant 0 <= attempts <= MaxAttempts
      invariant attempts >= 1 ==> directions != []
      invariant placed ==> attempts >= 1
      invariant !placed ==> unchanged(grid)
      invariant placed ==>
        found.word == word && found.index == wordIndex &&
        found.direction in directions && (found.isBackwards ==> allowBackwards) &&
        WordAt(grid, word, found.startX, found.startY, found.direction, found.isBackwards, wordIndex) &&
        Extends(grid) &&
        (old(KnowsPositions(grid)) ==> KnowsPositions(grid)) &&
        (old(HoldsCapitals(grid)) && (forall i :: 0 <= i < |word| ==> IsUpperLetter(word[i])) ==>
           HoldsCapitals(grid))
      invariant |word| > grid.Length0 ==> !placed
      invariant blank && |word| <= grid.Length0 && directions != [] ==>
        (attempts == 0 && !placed) || (attempts == 1 && placed)
      decreases MaxAttempts - attempts
    {
      var choice := GetRandomDirection(directions, allowBackwards);
      if choice.None? {
        return Failure(Wrapped(NoDirection)), attempts + 1;
      }
      var direction, isBackwards := choice.value.direction, choice.value.isBackwards;
      var rx: real :| 0.0 <= rx < 1.0;
      var ry: real :| 0.0 <= ry < 1.0;
      var p := GetRandomPosition(grid.Length0, |word|, direction, isBackwards, rx, ry);
      if |word| > grid.Length0 {
        LongWordNeverFits(grid, word, p.x, p.y, direction, isBackwards);
      } else if blank && attempts == 0 {
        CandidateInBounds(grid.Length0, |word|, direction, isBackwards, rx, ry);
        EmptyGridAccepts(grid, word, p.x, p.y, direction, isBackwards);
      }
      if CanPlaceWord(grid, word, p.x, p.y, direction, isBackwards) {
        var _ := PlaceWord(grid, word, p.x, p.y, direction, isBackwards, wordIndex);
        found := PlacedWord(word, p.x, p.y, direction, wordIndex, isBackwards);
        placed := true;
      }
      attempts := attempts + 1;
    }
    if !placed {
      return Failure(CouldNotPlace(word, MaxAttempts)), attempts;
    }
    return Success(found), attempts;
  }

  /** The state of the words loop after the first `|pws|` words: each of
      them placed and still readable, every cell knows its coordinate, and
      every letter is a capital. */
  ghost predicate Progress(grid: array2<Cell>, words: seq<string>, pws: seq<PlacedWord>,
                           directions: seq<Direction>, allowBackwards: bool)
    requires grid.Length0 == grid.Length1
    reads grid
  {
    |pws| <= |words| && PlacementsOf(pws, words[..|pws|], directions, allowBackwards) &&
    AllRecorded(grid, pws) && KnowsPositions(grid) && HoldsCapitals(grid)
  }

  /** One turn of the words loop: the retry loop for the next word, whose
      success keeps every earlier placement readable. */
  method PlaceNext(grid: array2<Cell>, words: seq<string>, placedWords: seq<PlacedWord>,
                   directions: seq<Direction>, allowBackwards: bool)
    returns (r: Result<PlacedWord, PuzzleError>, ghost attempts: int)
    requires grid.Length0 == grid.Length1
    requires |placedWords| < |words| && Progress(grid, words, placedWords, directions, allowBackwards)
    requires forall i :: 0 <= i < |words[|placedWords|]| ==> IsUpperLetter(words[|placedWords|][i])
    modifies grid
    ensures 1 <= attempts <= MaxAttempts
    ensures directions == [] ==> r == Failure(Wrapped(NoDirection))
    ensures directions != [] && r.Failure? ==>
      r.error == CouldNotPlace(words[|placedWords|], MaxAttempts) && attempts == MaxAttempts
    ensures r.Success? ==> Progress(grid, words, placedWords + [r.value], directions, allowBackwards)
    ensures |words[|placedWords|]| > grid.Length0 ==> r.Failure?
    ensures old(IsBlank(grid)) && |words[|placedWords|]| <= grid.Length0 && directions != [] ==>
      r.Success? && attempts == 1
  {
    var wordIndex := |placedWords|;
    r, attempts := TryPlaceWord(grid, words[wordIndex], wordIndex, directions, allowBackwards);
    if r.Success? {
      forall k, i | 0 <= k < wordIndex && 0 <= i < |placedWords[k].word|
        ensures HoldsAt(grid, PlacedCell(placedWords[k], i), PlacedLetter(placedWords[k], i), k)
      {
        var q := PlacedCell(placedWords[k], i);
        assert old(Records(grid, placedWords[k]));
        assert old(HoldsAt(grid, q, PlacedLetter(placedWords[k], i), k));
        assert old(grid[q.y, q.x].wordIndices) <= grid[q.y, q.x].wordIndices;
      }
      var pws := placedWords + [r.value];
      assert words[..|pws|] == words[..wordIndex] + [words[wordIndex]];
      assert forall k :: 0 <= k < wordIndex ==> pws[k] == placedWords[k];
    }
  }

  /** The `for (const [wordIndex, word] of words.entries())` loop: each
      word in turn gets its retry loop, and the first word that cannot be
      placed ends the loop. `tries[k]` is the number of candidates drawn
      for the `k`-th word. */
  method PlaceWords(grid: array2<Cell>, words: seq<string>, directions: seq<Direction>, allowBackwards: bool)
    returns (r: Result<seq<PlacedWord>, PuzzleError>, ghost tries: seq<int>)
    requires grid.Length0 == grid.Length1
    requires IsBlank(grid) && KnowsPositions(grid)
    requires forall k, i :: 0 <= k < |words| && 0 <= i < |words[k]| ==> IsUpperLetter(words[k][i])
    modifies grid
    ensures forall k :: 0 <= k < |tries| ==> 1 <= tries[k] <= MaxAttempts
    ensures r.Failure? ==> r.error == Wrapped(NoDirection) || r.error.CouldNotPlace?
    ensures r.Failure? && r.error.CouldNotPlace? ==>
      1 <= |tries| <= |words| && r.error == CouldNotPlace(words[|tries| - 1], MaxAttempts) &&
      tries[|tries| - 1] == MaxAttempts
    ensures r == Failure(Wrapped(NoDirection)) <==> words != [] && directions == []
    ensures directions != [] && words != [] && |words[0]| > grid.Length0 ==>
      r == Failure(CouldNotPlace(words[0], MaxAttempts))
    ensures directions != [] && |words| == 1 && |words[0]| <= grid.Length0 ==> r.Success? && tries == [1]
    ensures r.Success? ==> |r.value| == |tries| && PlacementsOf(r.value, words, directions, allowBackwards)
    ensures r.Success? ==> AllRecorded(grid, r.value) && KnowsPositions(grid) && HoldsCapitals(grid)
  {
    tries := [];
    var placedWords: seq<PlacedWord> := [];
    assert HoldsCapitals(grid);
    for wordIndex := 0 to |words|
      invariant |placedWords| == wordIndex == |tries|
      invariant forall k :: 0 <= k < wordIndex ==> 1 <= tries[k] <= MaxAttempts
      invariant Progress(grid, words, placedWords, directions, allowBackwards)
      invariant wordIndex == 0 ==> IsBlank(grid)
      invariant wordIndex > 0 ==> directions != [] && |words[0]| <= grid.Length0
      invariant wordIndex > 0 && |words| == 1 ==> tries == [1]
    {
      var outcome, attempts := PlaceNext(grid, words, placedWords, directions, allowBackwards);
      tries := tries + [attempts];
      if outcome.Failure? {
        return Failure(outcome.error), tries;
      }
      placedWords := placedWords + [outcome.value];
    }
    assert words[..|placedWords|] == words;
    return Success(placedWords), tries;
  }

  /** `fillEmptySpaces(grid)` at the end of a successful run: every cell
      then holds a capital letter and its own coordinate, and every placed
      word can still be read where it was recorded. */
  method FillRest(grid: array2<Cell>, placedWords: seq<PlacedWord>)
    requires grid.Length0 == grid.Length1
    requires KnowsPositions(grid) && HoldsCapitals(grid)
    requires AllRecorded(grid, placedWords)
    modifies grid
    ensures AllRecorded(grid, placedWords) && Finished(grid)
  {
    FillEmptySpaces(grid);
    forall k, i | 0 <= k < |placedWords| && 0 <= i < |placedWords[k].word|
      ensures HoldsAt(grid, PlacedCell(placedWords[k], i), PlacedLetter(placedWords[k], i), placedWords[k].index)
    {
      var q := PlacedCell(placedWords[k], i);
      assert old(Records(grid, placedWords[k]));
      assert old(HoldsAt(grid, q, PlacedLetter(placedWords[k], i), placedWords[k].index));
    }
  }

  /** The rest of `generatePuzzle` once the words are sorted: place every
      word, then fill the other cells. */
  method PlaceAndFill(grid: array2<Cell>, words: seq<string>, directions: seq<Direction>, allowBackwards: bool)
    returns (r: Result<Puzzle, PuzzleError>, ghost tries: seq<int>)
    requires grid.Length0 == grid.Length1
    requires IsBlank(grid) && KnowsPositions(grid)
    requires forall k, i :: 0 <= k < |words| && 0 <= i < |words[k]| ==> IsUpperLetter(words[k][i])
    modifies grid
    ensures forall k :: 0 <= k < |tries| ==> 1 <= tries[k] <= MaxAttempts
    ensures r.Failure? ==> r.error == Wrapped(NoDirection) || r.error.CouldNotPlace?
    ensures r.Failure? && r.error.CouldNotPlace? ==>
      1 <= |tries| <= |words| && r.error == CouldNotPlace(words[|tries| - 1], MaxAttempts) &&
      tries[|tries| - 1] == MaxAttempts
    ensures r == Failure(Wrapped(NoDirection)) <==> words != [] && directions == []
    ensures directions != [] && words != [] && |words[0]| > grid.Length0 ==>
      r == Failure(CouldNotPlace(words[0], MaxAttempts))
    ensures directions != [] && |words| == 1 && |words[0]| <= grid.Length0 ==> r.Success? && tries == [1]
    ensures r.Success? ==> r.value.grid == grid && |tries| == |words|
    ensures r.Success? ==> PlacementsOf(r.value.placedWords, words, directions, allowBackwards)
    ensures r.Success? ==> AllRecorded(grid, r.value.placedWords) && Finished(grid)
  {
    var placed;
    placed, tries := PlaceWords(grid, words, directions, allowBackwards);
    if placed.Failure? {
      return Failure(placed.error), tries;
    }
    var placedWords := placed.value;
    FillRest(grid, placedWords);
    return Success(Puzzle(grid, placedWords)), tries;
  }

  /** `validWords.sort(…)` and the placement of the sorted words: the
      longest word is tried first, and a lone word stays where it is. */
  method PlaceSorted(grid: array2<Cell>, validWords: seq<string>, directions: seq<Direction>, allowBackwards: bool)
    returns (r: Result<Puzzle, PuzzleError>, ghost tries: seq<int>)
    requires grid.Length0 == grid.Length1
    requires IsBlank(grid) && KnowsPositions(grid)
    requires validWords != [] && forall i :: 0 <= i < |validWords| ==> IsAcceptable(validWords[i])
    modifies grid
    ensures forall k :: 0 <= k < |tries| ==> 1 <= tries[k] <= MaxAttempts
    ensures r.Failure? ==> r.error == Wrapped(NoDirection) || r.error.CouldNotPlace?
    ensures r.Failure? && r.error.CouldNotPlace? ==>
      r.error.word in validWords && r.error.attempts == MaxAttempts &&
      tries != [] && tries[|tries| - 1] == MaxAttempts
    ensures r == Failure(Wrapped(NoDirection)) <==> directions == []
    ensures directions != [] && (exists w :: w in validWords && |w| > grid.Length0) ==>
      r == Failure(CouldNotPlace(SortByLength(validWords)[0], MaxAttempts))
    ensures directions != [] && |validWords| == 1 && |validWords[0]| <= grid.Length0 ==> r.Success? && tries == [1]
    ensures r.Success? ==> r.value.grid == grid && |tries| == |r.value.placedWords|
    ensures r.Success? ==> PlacementsOf(r.value.placedWords, SortByLength(validWords), directions, allowBackwards)
    ensures r.Success? ==> AllRecorded(grid, r.value.placedWords) && Finished(grid)
  {
    var words := SortByLength(validWords);
    assert forall k :: 0 <= k < |words| ==> words[k] in validWords by {
      SortedFromInput(validWords);
    }
    assert forall k, i :: 0 <= k < |words| && 0 <= i < |words[k]| ==> IsUpperLetter(words[k][i]) by {
      forall k, i | 0 <= k < |words| && 0 <= i < |words[k]|
        ensures IsUpperLetter(words[k][i])
      {
        var j :| 0 <= j < |validWords| && validWords[j] == words[k];
        assert IsAcceptable(validWords[j]);
      }
    }
    assert (exists w :: w in validWords && |w| > grid.Length0) ==> |words[0]| > grid.Length0 by {
      SortedHeadIsLongest(validWords);
    }
    assert |validWords| == 1 ==> words == validWords by {
      if |validWords| == 1 {
        SortedSingleton(validWords);
      }
    }
    r, tries := PlaceAndFill(grid, words, directions, allowBackwards);
  }

  /** `generatePuzzle` from the point where the grid exists: normalise the
      words, then place and fill. */
  method PlaceOnGrid(grid: array2<Cell>, config: GeneratorConfig) returns (r: Result<Puzzle, PuzzleError>, ghost tries: seq<int>)
    requires grid.Length0 == grid.Length1 == config.gridSize
    requires IsBlank(grid) && KnowsPositions(grid)
    modifies grid
    ensures ValidatePuzzleWords(config.words) == [] ==> r == Failure(NoValidWords)
    ensures r == Failure(Wrapped(NoDirection)) <==>
      ValidatePuzzleWords(config.words) != [] && config.directions == []
    ensures r != Failure(Wrapped(Cause.InvalidArrayLength))
    ensures forall k :: 0 <= k < |tries| ==> 1 <= tries[k] <= MaxAttempts
    ensures r.Failure? && r.error.CouldNotPlace? ==>
      r.error.word in ValidatePuzzleWords(config.words) && r.error.attempts == MaxAttempts &&
      tries != [] && tries[|tries| - 1] == MaxAttempts
    ensures (config.directions != [] &&
             exists w :: w in ValidatePuzzleWords(config.words) && |w| > config.gridSize) ==>
      r == Failure(CouldNotPlace(SortByLength(ValidatePuzzleWords(config.words))[0], MaxAttempts))
    ensures (config.directions != [] && |ValidatePuzzleWords(config.words)| == 1 &&
             |ValidatePuzzleWords(config.words)[0]| <= config.gridSize) ==>
      r.Success? && tries == [1]
    ensures r.Success? ==> r.value.grid == grid && |tries| == |r.value.placedWords|
    ensures r.Success? ==> PlacementsOf(r.value.placedWords, SortByLength(ValidatePuzzleWords(config.words)),
                                        config.directions, config.allowBackwards)
    ensures r.Success? ==> AllRecorded(grid, r.value.placedWords) && Finished(grid)
  {
    var validWords := ValidatePuzzleWords(config.words);
    if |validWords| == 0 {
      return Failure(NoValidWords), [];
    }
    r, tries := PlaceSorted(grid, validWords, config.directions, config.allowBackwards);
  }

  /** `generatePuzzle(config)`. The grid is built before the words are
      looked at, so a bad size fails first; then an empty normalised word
      list fails; then the words are placed longest first, each with the
      index it has in the sorted list, and the first word that cannot be
      placed ends the call with no partial result. `tries[k]` is the number
      of candidates drawn for the `k`-th word. */
  method GeneratePuzzle(config: GeneratorConfig) returns (r: Result<Puzzle, PuzzleError>, ghost tries: seq<int>)
    ensures !(0 <= config.gridSize <= MaxArrayLength) ==> r == Failure(Wrapped(Cause.InvalidArrayLength))
    ensures 0 <= config.gridSize <= MaxArrayLength && ValidatePuzzleWords(config.words) == [] ==>
      r == Failure(NoValidWords)
    ensures r == Failure(Wrapped(NoDirection)) <==>
      0 <= config.gridSize <= MaxArrayLength && ValidatePuzzleWords(config.words) != [] && config.directions == []
    ensures forall k :: 0 <= k < |tries| ==> 1 <= tries[k] <= MaxAttempts
    ensures r.Failure? && r.error.CouldNotPlace? ==>
      r.error.word in ValidatePuzzleWords(config.words) && r.error.attempts == MaxAttempts &&
      tries != [] && tries[|tries| - 1] == MaxAttempts
    // a word longer than the grid makes the longest word fail first
    ensures (0 <= config.gridSize <= MaxArrayLength && config.directions != [] &&
             exists w :: w in ValidatePuzzleWords(config.words) && |w| > config.gridSize) ==>
      r == Failure(CouldNotPlace(SortByLength(ValidatePuzzleWords(config.words))[0], MaxAttempts))
    // a single word that fits is placed at its first candidate
    ensures (0 <= config.gridSize <= MaxArrayLength && config.directions != [] &&
             |ValidatePuzzleWords(config.words)| == 1 &&
             |ValidatePuzzleWords(config.words)[0]| <= config.gridSize) ==>
      r.Success? && tries == [1]
    ensures r.Success? ==>
      fresh(r.value.grid) && r.value.grid.Length0 == r.value.grid.Length1 == config.gridSize &&
      |tries| == |r.value.placedWords|
    ensures r.Success? ==> PlacementsOf(r.value.placedWords, SortByLength(ValidatePuzzleWords(config.words)),
                                        config.directions, config.allowBackwards)
    ensures r.Success? ==> AllRecorded(r.value.grid, r.value.placedWords) && Finished(r.value.grid)
  {
    var size := config.gridSize;
    var init := InitializeGrid(size);
    if init.Failure? {
      return Failure(Wrapped(Cause.InvalidArrayLength)), [];
    }
    r, tries := PlaceOnGrid(init.value, config);
  }
}
