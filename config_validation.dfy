/** src/utils/validation.ts: the clamps applied to numeric settings and the
    list of problems with a partly filled configuration. */
module ConfigValidation {

  import opened Wrappers
  import opened Text
  import opened Placement

  /** A JavaScript number as these checks see it: a finite value, `NaN` or
      one of the two infinities. */
  datatype JsNumber = Finite(value: real) | NaN | PosInf | NegInf

  /** The cap `validateGridSize` applies. */
  const MaxGridSize: int := 100

  /** The bounds and the fallback `validateFontSize` uses. */
  const MinFontSize: int := 8
  const MaxFontSize: int := 24
  const DefaultFontSize: int := 16

  /** `validateGridSize(size, minRequired)`: a `NaN` or infinite size gives
      `minRequired`; a finite one is floored, raised to `minRequired` and
      capped at 100, the cap winning over the minimum. */
  function ValidateGridSize(size: JsNumber, minRequired: int): (r: int)
    ensures !size.Finite? ==> r == minRequired
    ensures size.Finite? ==> r <= MaxGridSize
    ensures size.Finite? && minRequired <= MaxGridSize ==> minRequired <= r
    ensures size.Finite? && minRequired <= size.value.Floor <= MaxGridSize ==> r == size.value.Floor
    ensures size.Finite? && size.value.Floor < minRequired ==> r == Min(minRequired, MaxGridSize)
    ensures size.Finite? && size.value.Floor > MaxGridSize ==> r == MaxGridSize
  {
    if !size.Finite? then minRequired
    else
      var validSize := Max(size.value.Floor, minRequired);
      Min(validSize, MaxGridSize)
  }

  /** `MIN_GRID_SIZE` of src/utils/constants.ts, the default `minRequired`. */
  const DefaultMinRequired: int := 10

  /** `validateGridSize(size)`, with `minRequired` left to its default: the
      result always lies in [10, 100], whatever the size, `NaN` included. */
  function ValidateGridSizeDefault(size: JsNumber): (r: int)
    ensures DefaultMinRequired <= r <= MaxGridSize
    ensures size.Finite? && DefaultMinRequired <= size.value.Floor <= MaxGridSize ==> r == size.value.Floor
  {
    ValidateGridSize(size, DefaultMinRequired)
  }

  /** The cap of 100 holds exactly when the size is finite or the minimum
      is itself at most 100: the `NaN` path returns the minimum uncapped. */
  lemma GridSizeCap(size: JsNumber, minRequired: int)
    ensures ValidateGridSize(size, minRequired) <= MaxGridSize <==> size.Finite? || minRequired <= MaxGridSize
  {
  }

  /** A `NaN` size with a minimum above the cap returns more than 100,
      while any finite size with that minimum returns exactly 100. */
  lemma NaNSizeNotCapped(v: real)
    ensures ValidateGridSize(NaN, 150) == 150
    ensures ValidateGridSize(Finite(v), 150) == MaxGridSize
  {
  }

  /** `validateFontSize(size)`: 16 for `NaN` or an infinity, otherwise the
      floor clamped into [8, 24]. */
  function ValidateFontSize(size: JsNumber): (r: int)
    ensures MinFontSize <= r <= MaxFontSize
    ensures !size.Finite? ==> r == DefaultFontSize
    ensures size.Finite? && MinFontSize <= size.value.Floor <= MaxFontSize ==> r == size.value.Floor
    ensures size.Finite? && size.value.Floor < MinFontSize ==> r == MinFontSize
    ensures size.Finite? && size.value.Floor > MaxFontSize ==> r == MaxFontSize
  {
    if !size.Finite? then DefaultFontSize
    else Min(Max(size.value.Floor, MinFontSize), MaxFontSize)
  }

  /** Clamping a font size twice changes nothing more. */
  lemma FontSizeIdempotent(size: JsNumber)
    ensures ValidateFontSize(Finite(ValidateFontSize(size) as real)) == ValidateFontSize(size)
  {
  }

  /** The fields of a `Partial<PuzzleConfig>` that `validateConfig` reads;
      `None` is a field left `undefined`. */
  datatype ConfigInput = ConfigInput(title: Option<string>, words: Option<seq<string>>, gridSize: Option<JsNumber>)

  const TitleRequired: string := "Title is required"
  const WordsRequired: string := "At least one word is required"

  /** The grid-size message, with `minGridSize` written in decimal. */
  function GridSizeTooSmall(minGridSize: int): (m: string)
    ensures |m| > |WordsRequired| > |TitleRequired|
  {
    "Grid size must be at least " + IntToString(minGridSize) + " to accommodate the longest word"
  }

  /** `!config.title?.trim()`: no title, or only white space. */
  predicate TitleMissing(title: Option<string>)
  {
    title.None? || Trim(title.value) == ""
  }

  /** `!Array.isArray(config.words) || config.words.length === 0`. */
  predicate WordsMissing(words: Option<seq<string>>)
  {
    words.None? || words.value == []
  }

  /** A number is falsy when it is zero or `NaN`. */
  predicate Truthy(n: JsNumber)
  {
    match n
    case Finite(v) => v != 0.0
    case NaN => false
    case PosInf => true
    case NegInf => true
  }

  /** `n < m` on a JavaScript number and an integer. */
  predicate LessThan(n: JsNumber, m: int)
  {
    match n
    case Finite(v) => v < m as real
    case NaN => false
    case PosInf => false
    case NegInf => true
  }

  /** `config.gridSize && config.gridSize < minGridSize`. */
  predicate GridTooSmall(gridSize: Option<JsNumber>, minGridSize: int)
  {
    gridSize.Some? && Truthy(gridSize.value) && LessThan(gridSize.value, minGridSize)
  }

  /** `validateConfig(config, minGridSize)`: pushes one message per failed
      test, in the order title, words, grid size. */
  method ValidateConfig(config: ConfigInput, minGridSize: int) returns (errors: seq<string>)
    ensures TitleRequired in errors <==> TitleMissing(config.title)
    ensures WordsRequired in errors <==> WordsMissing(config.words)
    ensures GridSizeTooSmall(minGridSize) in errors <==> GridTooSmall(config.gridSize, minGridSize)
    ensures errors == (if TitleMissing(config.title) then [TitleRequired] else []) +
      (if WordsMissing(config.words) then [WordsRequired] else []) +
      (if GridTooSmall(config.gridSize, minGridSize) then [GridSizeTooSmall(minGridSize)] else [])
  {
    ghost var title := if TitleMissing(config.title) then [TitleRequired] else [];
    ghost var words := if WordsMissing(config.words) then [WordsRequired] else [];
    ghost var size := if GridTooSmall(config.gridSize, minGridSize) then [GridSizeTooSmall(minGridSize)] else [];
    errors := [];
    if config.title.None? || Trim(config.title.value) == "" {
      errors := errors + [TitleRequired];
    }
    assert errors == title;
    if config.words.None? || |config.words.value| == 0 {
      errors := errors + [WordsRequired];
    }
    assert errors == title + words;
    if config.gridSize.Some? && Truthy(config.gridSize.value) && LessThan(config.gridSize.value, minGridSize) {
      errors := errors + [GridSizeTooSmall(minGridSize)];
    }
    assert errors == title + words + size;
    PickedMembers(TitleRequired, WordsRequired, GridSizeTooSmall(minGridSize), TitleMissing(config.title),
                  WordsMissing(config.words), GridTooSmall(config.gridSize, minGridSize));
  }

  /** Three messages of different lengths, each kept or dropped: a message
      is in the list exactly when it was kept. */
  lemma PickedMembers(a: string, b: string, c: string, keepA: bool, keepB: bool, keepC: bool)
    requires |a| < |b| < |c|
    ensures var l := (if keepA then [a] else []) + (if keepB then [b] else []) + (if keepC then [c] else []);
      (a in l <==> keepA) && (b in l <==> keepB) && (c in l <==> keepC)
  {
  }

  /** A zero, `NaN` or missing grid size never draws the grid-size error,
      whatever the minimum. */
  lemma FalsyGridSizeAccepted(gridSize: Option<JsNumber>, minGridSize: int)
    requires gridSize.None? || !Truthy(gridSize.value)
    ensures !GridTooSmall(gridSize, minGridSize)
  {
  }
}
