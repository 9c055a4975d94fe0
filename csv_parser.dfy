/** src/utils/csvParser.ts: `parseCSV` reads a list of puzzles. Lines are
    split on `\n`, trimmed, and blank ones dropped; a line starting with
    `Title:` opens a puzzle; every other line adds its comma-separated,
    trimmed fields to the open puzzle; lines before the first title are
    ignored. */
module CsvParser {

  import opened Wrappers
  import opened Text

  /** `{ title, words }`. */
  datatype CsvPuzzle = CsvPuzzle(title: string, words: seq<string>)

  /** `content.split('\n').map(line => line.trim()).filter(Boolean)`. */
  function KeptLines(content: string): seq<string>
  {
    NonBlank(TrimAll(Split(content, '\n')))
  }

  function TrimAll(ls: seq<string>): (r: seq<string>)
    ensures |r| == |ls|
    ensures forall i :: 0 <= i < |ls| ==> r[i] == Trim(ls[i])
  {
    seq(|ls|, i requires 0 <= i < |ls| => Trim(ls[i]))
  }

  function NonBlank(ls: seq<string>): (r: seq<string>)
    ensures forall i :: 0 <= i < |r| ==> r[i] != ""
  {
    if ls == [] then []
    else (if ls[0] != "" then [ls[0]] else []) + NonBlank(ls[1..])
  }

  /** Every line `NonBlank` keeps comes from its input. */
  lemma {:induction false} NonBlankFrom(ls: seq<string>)
    ensures forall i :: 0 <= i < |NonBlank(ls)| ==> NonBlank(ls)[i] in ls
  {
    if ls != [] {
      NonBlankFrom(ls[1..]);
      var r := NonBlank(ls);
      forall i | 0 <= i < |r|
        ensures r[i] in ls
      {
        if ls[0] != "" && i == 0 {
        } else {
          var j := if ls[0] != "" then i - 1 else i;
          assert r[i] == NonBlank(ls[1..])[j];
        }
      }
    }
  }

  /** The filter works line by line: the lines kept from `a + b` are those
      kept from `a` followed by those kept from `b`, so order is kept. */
  lemma {:induction false} NonBlankConcat(a: seq<string>, b: seq<string>)
    ensures NonBlank(a + b) == NonBlank(a) + NonBlank(b)
  {
    if a == [] {
      assert a + b == b;
    } else {
      assert (a + b)[0] == a[0] && (a + b)[1..] == a[1..] + b;
      NonBlankConcat(a[1..], b);
    }
  }

  /** One line is kept exactly when it is not empty. */
  lemma NonBlankOne(l: string)
    ensures NonBlank([l]) == if l == "" then [] else [l]
  {
    assert [l][1..] == [];
  }

  /** A line is kept exactly when it is a non-empty line of the input. */
  lemma {:induction false} NonBlankMembership(ls: seq<string>, l: string)
    ensures l in NonBlank(ls) <==> l != "" && l in ls
  {
    if ls != [] {
      NonBlankMembership(ls[1..], l);
      assert ls == [ls[0]] + ls[1..];
    }
  }

  /** A line is kept exactly when it is the trimmed form, not empty, of
      some piece of the content between two `\n`. */
  lemma KeptLinesMembership(content: string, l: string)
    ensures l in KeptLines(content) <==>
      l != "" && exists k :: 0 <= k < |Split(content, '\n')| && Trim(Split(content, '\n')[k]) == l
  {
    var pieces := Split(content, '\n');
    var trimmed := TrimAll(pieces);
    assert KeptLines(content) == NonBlank(trimmed);
    NonBlankMembership(trimmed, l);
    assert l in trimmed <==> exists k :: 0 <= k < |pieces| && Trim(pieces[k]) == l by {
      if l in trimmed {
        var k :| 0 <= k < |trimmed| && trimmed[k] == l;
        assert Trim(pieces[k]) == l;
      }
      if exists k :: 0 <= k < |pieces| && Trim(pieces[k]) == l {
        var k :| 0 <= k < |pieces| && Trim(pieces[k]) == l;
        assert trimmed[k] == l;
      }
    }
    assert l in KeptLines(content) <==> l != "" && l in trimmed;
    assert pieces == Split(content, '\n');
  }

  /** Content written as lines joined by `\n` yields exactly those lines,
      trimmed, with the empty ones dropped, in their order. */
  lemma KeptLinesOfJoin(lines: seq<string>)
    requires |lines| >= 1
    requires forall k :: 0 <= k < |lines| ==> '\n' !in lines[k]
    ensures KeptLines(Join(lines, '\n')) == NonBlank(TrimAll(lines))
  {
    SplitJoin(lines, '\n');
  }

  /** Every kept line is non-empty and already trimmed. */
  lemma KeptLinesAreTrimmed(content: string)
    ensures forall i :: 0 <= i < |KeptLines(content)| ==>
      KeptLines(content)[i] != "" && Trim(KeptLines(content)[i]) == KeptLines(content)[i]
  {
    var pieces := TrimAll(Split(content, '\n'));
    NonBlankFrom(pieces);
    forall i | 0 <= i < |KeptLines(content)|
      ensures Trim(KeptLines(content)[i]) == KeptLines(content)[i]
    {
      var l := KeptLines(content)[i];
      var k :| 0 <= k < |pieces| && pieces[k] == l;
      TrimIdempotent(Split(content, '\n')[k]);
    }
  }

  /** `line.startsWith('Title:')`. */
  predicate IsTitle(line: string)
  {
    StartsWith(line, "Title:")
  }

  /** `line.replace('Title:', '').trim()`. */
  function TitleOf(line: string): string
  {
    Trim(ReplaceFirst(line, "Title:", ""))
  }

  /** On a title line the first `Title:` is the prefix, so the title is the
      rest of the line, trimmed. */
  lemma TitleIsRest(line: string)
    requires IsTitle(line)
    ensures TitleOf(line) == Trim(line[6..])
  {
    ReplacePrefix(line, "Title:");
  }

  /** `line.split(',').map(word => word.trim())`: empty fields are kept. */
  function Fields(line: string): (r: seq<string>)
    ensures |r| == |Split(line, ',')| >= 1
    ensures forall i :: 0 <= i < |r| ==> r[i] == Trim(Split(line, ',')[i])
  {
    TrimAll(Split(line, ','))
  }

  /** The title lines, in order. */
  function Titles(lines: seq<string>): seq<string>
  {
    if lines == [] then []
    else (if IsTitle(lines[0]) then [lines[0]] else []) + Titles(lines[1..])
  }

  /** The fields of the lines before the first title line. */
  function Body(lines: seq<string>): seq<string>
  {
    if lines == [] || IsTitle(lines[0]) then []
    else Fields(lines[0]) + Body(lines[1..])
  }

  /** What the parser means, read from the front: one puzzle per title line,
      in order, titled by that line and holding the fields of the lines up
      to the next title; lines before the first title contribute nothing. */
  function Expected(lines: seq<string>): seq<CsvPuzzle>
  {
    if lines == [] then []
    else if IsTitle(lines[0]) then [CsvPuzzle(TitleOf(lines[0]), Body(lines[1..]))] + Expected(lines[1..])
    else Expected(lines[1..])
  }

  /** There is one puzzle per title line, titled by that line. */
  lemma {:induction false} ExpectedTitles(lines: seq<string>)
    ensures |Expected(lines)| == |Titles(lines)|
    ensures forall j :: 0 <= j < |Expected(lines)| ==> Expected(lines)[j].title == TitleOf(Titles(lines)[j])
  {
    if lines != [] {
      ExpectedTitles(lines[1..]);
    }
  }

  /** Lines before the first title line are ignored. */
  lemma {:induction false} PreambleIgnored(preamble: seq<string>, rest: seq<string>)
    requires Titles(preamble) == []
    ensures Expected(preamble + rest) == Expected(rest)
  {
    if preamble == [] {
      assert preamble + rest == rest;
    } else {
      assert !IsTitle(preamble[0]) && Titles(preamble[1..]) == [];
      assert (preamble + rest)[0] == preamble[0];
      assert (preamble + rest)[1..] == preamble[1..] + rest;
      assert Expected(preamble + rest) == Expected(preamble[1..] + rest);
      PreambleIgnored(preamble[1..], rest);
    }
  }

  /** The words of the `j`-th puzzle are the fields of the lines between
      its title line and the next one. */
  lemma {:induction false} ExpectedWords(lines: seq<string>, t: int)
    requires 0 <= t < |lines| && IsTitle(lines[t])
    ensures var j := |Titles(lines[..t])|;
      j < |Expected(lines)| && Expected(lines)[j] == CsvPuzzle(TitleOf(lines[t]), Body(lines[t + 1..]))
  {
    if t > 0 {
      var rest := lines[1..];
      assert rest[t - 1] == lines[t];
      assert rest[t - 1 + 1..] == lines[t + 1..];
      ExpectedWords(rest, t - 1);
      assert lines[..t][1..] == rest[..t - 1];
      var j' := |Titles(rest[..t - 1])|;
      var p := CsvPuzzle(TitleOf(lines[t]), Body(lines[t + 1..]));
      assert Expected(rest)[j'] == p;
      if IsTitle(lines[0]) {
        var head := CsvPuzzle(TitleOf(lines[0]), Body(rest));
        assert Titles(lines[..t]) == [lines[0]] + Titles(rest[..t - 1]);
        assert Expected(lines) == [head] + Expected(rest);
        assert ([head] + Expected(rest))[j' + 1] == p;
      } else {
        assert Titles(lines[..t]) == Titles(rest[..t - 1]);
        assert Expected(lines) == Expected(rest);
      }
    }
  }

  lemma {:induction false} TitlesSnoc(a: seq<string>, x: string)
    ensures Titles(a + [x]) == Titles(a) + (if IsTitle(x) then [x] else [])
  {
    var t := if IsTitle(x) then [x] else [];
    if a == [] {
      assert [x][1..] == [];
      assert Titles([x]) == t + Titles([]);
    } else {
      var h := if IsTitle(a[0]) then [a[0]] else [];
      assert (a + [x])[0] == a[0] && (a + [x])[1..] == a[1..] + [x];
      TitlesSnoc(a[1..], x);
      assert Titles(a + [x]) == h + (Titles(a[1..]) + t);
      assert h + (Titles(a[1..]) + t) == (h + Titles(a[1..])) + t;
    }
  }

  lemma {:induction false} BodySnoc(a: seq<string>, x: string)
    ensures Body(a + [x]) == Body(a) + (if Titles(a) == [] && !IsTitle(x) then Fields(x) else [])
  {
    if a == [] {
      assert [x][1..] == [];
    } else {
      assert (a + [x])[1..] == a[1..] + [x];
      if !IsTitle(a[0]) {
        BodySnoc(a[1..], x);
      }
    }
  }

  /** The open puzzle's words grow by `ws`. */
  function AddToLast(ps: seq<CsvPuzzle>, ws: seq<string>): seq<CsvPuzzle>
    requires ps != []
  {
    ps[..|ps| - 1] + [ps[|ps| - 1].(words := ps[|ps| - 1].words + ws)]
  }

  /** One more line that is a title line opens a new, empty puzzle. */
  lemma {:induction false} SnocTitle(a: seq<string>, x: string)
    requires IsTitle(x)
    ensures Expected(a + [x]) == Expected(a) + [CsvPuzzle(TitleOf(x), [])]
  {
    if a == [] {
      assert [x][1..] == [];
    } else {
      var a' := a[1..];
      assert (a + [x])[0] == a[0] && (a + [x])[1..] == a' + [x];
      SnocTitle(a', x);
      BodySnoc(a', x);
      var last := [CsvPuzzle(TitleOf(x), [])];
      if IsTitle(a[0]) {
        var p0 := [CsvPuzzle(TitleOf(a[0]), Body(a'))];
        assert Body(a' + [x]) == Body(a');
        assert Expected(a + [x]) == [CsvPuzzle(TitleOf(a[0]), Body(a' + [x]))] + Expected(a' + [x]);
        assert Expected(a + [x]) == p0 + (Expected(a') + last);
        assert p0 + (Expected(a') + last) == (p0 + Expected(a')) + last;
      }
    }
  }

  /** One more line that is not a title line, with no title before it, is
      ignored. */
  lemma SnocPreamble(a: seq<string>, x: string)
    requires !IsTitle(x) && Titles(a) == []
    ensures Expected(a + [x]) == []
  {
    TitlesSnoc(a, x);
    PreambleIgnored(a + [x], []);
    assert a + [x] + [] == a + [x];
  }

  /** One more line that is not a title line, after a title, adds its
      fields to the last puzzle. */
  lemma {:induction false} SnocBody(a: seq<string>, x: string)
    requires !IsTitle(x) && Titles(a) != []
    ensures Expected(a) != [] && Expected(a + [x]) == AddToLast(Expected(a), Fields(x))
    decreases |a|, 1
  {
    if IsTitle(a[0]) {
      SnocBodyAfterTitle(a, x);
    } else {
      var a' := a[1..];
      assert (a + [x])[0] == a[0] && (a + [x])[1..] == a' + [x];
      SnocBody(a', x);
    }
  }

  /** `SnocBody` when the first line is a title line, which opens the
      first puzzle. */
  lemma {:induction false} SnocBodyAfterTitle(a: seq<string>, x: string)
    requires !IsTitle(x) && a != [] && IsTitle(a[0])
    ensures Expected(a) != [] && Expected(a + [x]) == AddToLast(Expected(a), Fields(x))
    decreases |a|, 0
  {
    var a' := a[1..];
    assert (a + [x])[0] == a[0] && (a + [x])[1..] == a' + [x];
    BodySnoc(a', x);
    var p0 := CsvPuzzle(TitleOf(a[0]), Body(a'));
    assert Expected(a) == [p0] + Expected(a');
    if Titles(a') == [] {
      ExpectedTitles(a');
      SnocPreamble(a', x);
    } else {
      SnocBody(a', x);
      var e := Expected(a');
      assert Body(a' + [x]) == Body(a');
      assert Expected(a + [x]) == [p0] + Expected(a' + [x]);
      assert ([p0] + e)[..|[p0] + e| - 1] == [p0] + e[..|e| - 1];
    }
  }

  /** The parser's state after the lines `done`: the finished puzzles and
      the open one, which together are what those lines mean. */
  predicate Parsed(done: seq<string>, puzzles: seq<CsvPuzzle>, current: Option<CsvPuzzle>)
  {
    if current.None? then puzzles == [] && Titles(done) == [] && Expected(done) == []
    else Titles(done) != [] && puzzles + [current.value] == Expected(done)
  }

  /** The `forEach` callback on one kept line: a title line closes the open
      puzzle and opens a new one; any other line adds its fields to the open
      puzzle, if there is one. */
  method ParseLine(done: seq<string>, line: string, puzzles: seq<CsvPuzzle>, current: Option<CsvPuzzle>)
    returns (puzzles': seq<CsvPuzzle>, current': Option<CsvPuzzle>)
    requires Parsed(done, puzzles, current)
    ensures Parsed(done + [line], puzzles', current')
  {
    TitlesSnoc(done, line);
    puzzles', current' := puzzles, current;
    if IsTitle(line) {
      SnocTitle(done, line);
      if current.Some? {
        puzzles' := puzzles + [current.value];
      }
      current' := Some(CsvPuzzle(TitleOf(line), []));
    } else if current.Some? {
      SnocBody(done, line);
      var open := current.value.(words := current.value.words + Fields(line));
      assert AddToLast(puzzles + [current.value], Fields(line)) == puzzles + [open];
      current' := Some(open);
    } else {
      SnocPreamble(done, line);
    }
  }

  /** `parseCSV(content)`: one puzzle per title line, in order, as
      `Expected` describes. */
  method ParseCsv(content: string) returns (puzzles: seq<CsvPuzzle>)
    ensures puzzles == Expected(KeptLines(content))
  {
    var lines := KeptLines(content);
    puzzles := [];
    var current: Option<CsvPuzzle> := None;
    for i := 0 to |lines|
      invariant Parsed(lines[..i], puzzles, current)
    {
      PrefixStep(lines, i);
      puzzles, current := ParseLine(lines[..i], lines[i], puzzles, current);
    }
    assert lines[..|lines|] == lines;
    ParsedAll(lines, puzzles, current);
    if current.Some? {
      puzzles := puzzles + [current.value];
    }
  }

  lemma PrefixStep(lines: seq<string>, i: int)
    requires 0 <= i < |lines|
    ensures lines[..i + 1] == lines[..i] + [lines[i]]
  {
  }

  /** Closing the open puzzle, if any, at the end gives what all the lines
      mean. */
  lemma ParsedAll(lines: seq<string>, puzzles: seq<CsvPuzzle>, current: Option<CsvPuzzle>)
    requires Parsed(lines, puzzles, current)
    ensures (if current.Some? then puzzles + [current.value] else puzzles) == Expected(lines)
  {
  }
}
