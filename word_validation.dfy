/** `validatePuzzleWords` in src/utils/puzzle/wordValidation.ts, the word
    list normaliser the generator uses: trim, upper-case, then keep the
    words made of 2 to 15 capital letters. */
module WordValidation {

  import opened Text

  const MinWordLength := 2
  const MaxWordLength := 15

  /** `word.trim().toUpperCase()`. */
  function Normalize(word: string): string
  {
    Upper(Trim(word))
  }

  /** `^[A-Z]+$`: one or more capital letters and nothing else. */
  predicate MatchesCapitals(word: string)
  {
    |word| >= 1 && forall i :: 0 <= i < |word| ==> IsUpperLetter(word[i])
  }

  /** The filter's three tests, in order: non-empty, the pattern, the length. */
  predicate IsAcceptable(word: string)
  {
    word != "" && MatchesCapitals(word) && MinWordLength <= |word| <= MaxWordLength
  }

  /** The `map` step. */
  function NormalizeAll(words: seq<string>): seq<string>
  {
    seq(|words|, i requires 0 <= i < |words| => Normalize(words[i]))
  }

  /** The `filter` step. */
  function KeepAcceptable(words: seq<string>): (r: seq<string>)
    ensures |r| <= |words|
    ensures forall i :: 0 <= i < |r| ==> IsAcceptable(r[i])
  {
    if words == [] then []
    else (if IsAcceptable(words[0]) then [words[0]] else []) + KeepAcceptable(words[1..])
  }

  /** `validatePuzzleWords`: every word it returns is acceptable, and it
      never returns more words than it was given. */
  function ValidatePuzzleWords(words: seq<string>): (r: seq<string>)
    ensures |r| <= |words|
    ensures forall i :: 0 <= i < |r| ==> IsAcceptable(r[i])
  {
    KeepAcceptable(NormalizeAll(words))
  }

  /** The normaliser works word by word: the result for a concatenation is
      the concatenation of the results, so input order is kept and
      duplicates are not removed. */
  lemma {:induction false} ValidateConcat(a: seq<string>, b: seq<string>)
    ensures ValidatePuzzleWords(a + b) == ValidatePuzzleWords(a) + ValidatePuzzleWords(b)
  {
    NormalizeAllConcat(a, b);
    KeepConcat(NormalizeAll(a), NormalizeAll(b));
  }

  lemma {:induction false} NormalizeAllConcat(a: seq<string>, b: seq<string>)
    ensures NormalizeAll(a + b) == NormalizeAll(a) + NormalizeAll(b)
  {
    assert forall i :: 0 <= i < |a + b| ==> NormalizeAll(a + b)[i] == (NormalizeAll(a) + NormalizeAll(b))[i];
  }

  lemma {:induction false} KeepConcat(a: seq<string>, b: seq<string>)
    ensures KeepAcceptable(a + b) == KeepAcceptable(a) + KeepAcceptable(b)
  {
    if a == [] {
      assert a + b == b;
    } else {
      assert (a + b)[1..] == a[1..] + b;
      assert (a + b)[0] == a[0];
      KeepConcat(a[1..], b);
    }
  }

  /** One word is kept, normalised, exactly when its normal form is acceptable. */
  lemma ValidateOne(w: string)
    ensures ValidatePuzzleWords([w]) ==
      if IsAcceptable(Normalize(w)) then [Normalize(w)] else []
  {
    assert NormalizeAll([w]) == [Normalize(w)];
    assert KeepAcceptable([Normalize(w)]) ==
      (if IsAcceptable(Normalize(w)) then [Normalize(w)] else []) + KeepAcceptable([]);
  }

  /** A word is in the output exactly when it is the normal form of some
      input word and acceptable. */
  lemma {:induction false} ValidateMembership(words: seq<string>, w: string)
    ensures w in ValidatePuzzleWords(words) <==>
      IsAcceptable(w) && exists i :: 0 <= i < |words| && Normalize(words[i]) == w
  {
    if words != [] {
      ValidateMembership(words[1..], w);
      assert [words[0]] + words[1..] == words;
      ValidateConcat([words[0]], words[1..]);
      ValidateOne(words[0]);
      if exists i :: 0 <= i < |words| && Normalize(words[i]) == w {
        var i :| 0 <= i < |words| && Normalize(words[i]) == w;
        if i > 0 {
          assert Normalize(words[1..][i - 1]) == w;
        }
      }
      forall i | 0 <= i < |words[1..]| && Normalize(words[1..][i]) == w
        ensures exists j :: 0 <= j < |words| && Normalize(words[j]) == w
      {
        assert Normalize(words[i + 1]) == w;
      }
    }
  }

  /** An acceptable word is already in normal form. */
  lemma NormalizeAcceptable(w: string)
    requires IsAcceptable(w)
    ensures Normalize(w) == w
  {
    TrimNoSpace(w);
    UpperOfCapitals(w);
  }

  /** Normalising an already normalised list returns it unchanged. */
  lemma {:induction false} ValidateIdempotent(words: seq<string>)
    ensures ValidatePuzzleWords(ValidatePuzzleWords(words)) == ValidatePuzzleWords(words)
  {
    AcceptableListFixed(ValidatePuzzleWords(words));
  }

  lemma {:induction false} AcceptableListFixed(words: seq<string>)
    requires forall i :: 0 <= i < |words| ==> IsAcceptable(words[i])
    ensures ValidatePuzzleWords(words) == words
  {
    if words != [] {
      AcceptableListFixed(words[1..]);
      NormalizeAcceptable(words[0]);
      ValidateConcat([words[0]], words[1..]);
      assert [words[0]] + words[1..] == words;
    }
  }

  /** A word with a digit is dropped, so a list of such words normalises to
      nothing (the generator then fails with "no valid words"). */
  lemma RejectsDigits()
    ensures ValidatePuzzleWords(["abc123"]) == []
  {
    var w := "abc123";
    assert !IsSpace(w[0]) && !IsSpace(w[5]);
    TrimFixed(w);
    var n := Upper(w);
    assert n[3] == '1';
    assert !IsAcceptable(n);
    ValidateOne(w);
  }

  /** Duplicates survive normalisation, including ones that only become
      equal after trimming and upper-casing. */
  lemma KeepsDuplicates()
    ensures ValidatePuzzleWords(["cat", " CAT"]) == ["CAT", "CAT"]
  {
    var a, b := "cat", " CAT";
    assert !IsSpace(a[0]) && !IsSpace(a[2]);
    TrimFixed(a);
    assert Upper(a) == "CAT";
    assert IsSpace(b[0]) && b[1..] == "CAT";
    assert TrimStart(b) == TrimStart("CAT");
    assert !IsSpace('C') && !IsSpace('T');
    TrimFixed("CAT");
    UpperOfCapitals("CAT");
    assert Normalize(a) == "CAT" && Normalize(b) == "CAT";
    assert IsAcceptable("CAT");
    ValidateOne(a);
    ValidateOne(b);
    ValidateConcat([a], [b]);
    assert [a] + [b] == ["cat", " CAT"];
  }
}
