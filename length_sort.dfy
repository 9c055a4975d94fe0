/** `validWords.sort((a, b) => b.length - a.length)` in
    src/utils/puzzleGenerator.ts: longest first. JavaScript's
    `Array.prototype.sort` is stable, so words of equal length keep their
    input order; the model is a stable insertion sort. */
module LengthSort {

  /** Lengths never increase from left to right. */
  predicate Descending(s: seq<string>)
  {
    forall i, j :: 0 <= i < j < |s| ==> |s[i]| >= |s[j]|
  }

  /** Inserts `w` into a list sorted longest first, after every word at
      least as long as `w`. */
  function InsertByLength(w: string, ws: seq<string>): (r: seq<string>)
    ensures |r| == |ws| + 1
    ensures multiset(r) == multiset(ws) + multiset{w}
  {
    if ws == [] then [w]
    else if |ws[0]| >= |w| then
      assert ws == [ws[0]] + ws[1..];
      [ws[0]] + InsertByLength(w, ws[1..])
    else [w] + ws
  }

  /** The sorted copy of `ws`: a permutation of `ws`. */
  function SortByLength(ws: seq<string>): (r: seq<string>)
    ensures |r| == |ws|
    ensures multiset(r) == multiset(ws)
  {
    if ws == [] then []
    else
      assert ws == ws[..|ws| - 1] + [ws[|ws| - 1]];
      InsertByLength(ws[|ws| - 1], SortByLength(ws[..|ws| - 1]))
  }

  /** The words of `s` whose length is exactly `n`, in their order in `s`. */
  function OfLength(s: seq<string>, n: int): seq<string>
  {
    if s == [] then []
    else (if |s[0]| == n then [s[0]] else []) + OfLength(s[1..], n)
  }

  lemma {:induction false} InsertDescending(w: string, ws: seq<string>)
    requires Descending(ws)
    ensures Descending(InsertByLength(w, ws))
  {
    if ws != [] && |ws[0]| >= |w| {
      InsertDescending(w, ws[1..]);
      var rest := InsertByLength(w, ws[1..]);
      assert multiset(rest) == multiset(ws[1..]) + multiset{w};
      forall j | 0 <= j < |rest|
        ensures |ws[0]| >= |rest[j]|
      {
        assert rest[j] in multiset(rest);
        if rest[j] != w {
          assert rest[j] in multiset(ws[1..]);
          var k :| 0 <= k < |ws[1..]| && ws[1..][k] == rest[j];
          assert ws[k + 1] == rest[j];
        }
      }
    }
  }

  /** The sorted list is longest first. */
  lemma {:induction false} SortDescending(ws: seq<string>)
    ensures Descending(SortByLength(ws))
  {
    if ws != [] {
      SortDescending(ws[..|ws| - 1]);
      InsertDescending(ws[|ws| - 1], SortByLength(ws[..|ws| - 1]));
    }
  }

  lemma {:induction false} OfLengthNone(s: seq<string>, n: int)
    requires forall k :: 0 <= k < |s| ==> |s[k]| != n
    ensures OfLength(s, n) == []
  {
    if s != [] {
      OfLengthNone(s[1..], n);
    }
  }

  lemma {:induction false} OfLengthSnoc(s: seq<string>, w: string, n: int)
    ensures OfLength(s + [w], n) == OfLength(s, n) + (if |w| == n then [w] else [])
  {
    if s == [] {
      assert [w][1..] == [];
    } else {
      assert (s + [w])[1..] == s[1..] + [w];
      OfLengthSnoc(s[1..], w, n);
    }
  }

  lemma OfLengthCons(x: string, s: seq<string>, n: int)
    ensures OfLength([x] + s, n) == (if |x| == n then [x] else []) + OfLength(s, n)
  {
    assert ([x] + s)[1..] == s;
  }

  lemma DescendingTail(ws: seq<string>)
    requires ws != [] && Descending(ws)
    ensures Descending(ws[1..])
  {
    forall i, j | 0 <= i < j < |ws[1..]|
      ensures |ws[1..][i]| >= |ws[1..][j]|
    {
      assert ws[1..][i] == ws[i + 1] && ws[1..][j] == ws[j + 1];
    }
  }

  lemma {:induction false} InsertOfLength(w: string, ws: seq<string>, n: int)
    requires Descending(ws)
    ensures OfLength(InsertByLength(w, ws), n) == OfLength(ws, n) + (if |w| == n then [w] else [])
  {
    if ws == [] {
      OfLengthCons(w, [], n);
    } else if |ws[0]| >= |w| {
      DescendingTail(ws);
      InsertOfLength(w, ws[1..], n);
      InsertOfLengthBehind(w, ws, n);
    } else {
      InsertOfLengthFront(w, ws, n);
    }
  }

  lemma InsertOfLengthBehind(w: string, ws: seq<string>, n: int)
    requires ws != [] && |ws[0]| >= |w|
    requires OfLength(InsertByLength(w, ws[1..]), n) == OfLength(ws[1..], n) + (if |w| == n then [w] else [])
    ensures OfLength(InsertByLength(w, ws), n) == OfLength(ws, n) + (if |w| == n then [w] else [])
  {
    var head := if |ws[0]| == n then [ws[0]] else [];
    var tail := if |w| == n then [w] else [];
    OfLengthCons(ws[0], InsertByLength(w, ws[1..]), n);
    OfLengthCons(ws[0], ws[1..], n);
    assert [ws[0]] + ws[1..] == ws;
    assert head + (OfLength(ws[1..], n) + tail) == (head + OfLength(ws[1..], n)) + tail;
  }

  lemma InsertOfLengthFront(w: string, ws: seq<string>, n: int)
    requires ws != [] && |ws[0]| < |w| && Descending(ws)
    ensures OfLength(InsertByLength(w, ws), n) == OfLength(ws, n) + (if |w| == n then [w] else [])
  {
    OfLengthCons(w, ws, n);
    if |w| == n {
      forall k | 0 <= k < |ws|
        ensures |ws[k]| != n
      {
        assert k == 0 || |ws[0]| >= |ws[k]|;
      }
      OfLengthNone(ws, n);
    }
  }

  /** The sort is stable: for every length, the words of that length appear
      in the sorted list in the order they had in the input. */
  lemma {:induction false} SortStable(ws: seq<string>, n: int)
    ensures OfLength(SortByLength(ws), n) == OfLength(ws, n)
  {
    if ws != [] {
      var init, last := ws[..|ws| - 1], ws[|ws| - 1];
      SortStable(init, n);
      SortDescending(init);
      InsertOfLength(last, SortByLength(init), n);
      OfLengthSnoc(init, last, n);
      assert init + [last] == ws;
    }
  }

  /** The first word of the sorted list is a longest word of the input. */
  lemma SortedHeadIsLongest(ws: seq<string>)
    requires ws != []
    ensures forall w :: w in ws ==> |SortByLength(ws)[0]| >= |w|
  {
    var r := SortByLength(ws);
    SortDescending(ws);
    forall w | w in ws
      ensures |r[0]| >= |w|
    {
      assert w in multiset(ws);
      assert w in multiset(r);
      var k :| 0 <= k < |r| && r[k] == w;
    }
  }

  /** Every word of the sorted list comes from the input. */
  lemma SortedFromInput(ws: seq<string>)
    ensures forall k :: 0 <= k < |SortByLength(ws)| ==> SortByLength(ws)[k] in ws
  {
    var r := SortByLength(ws);
    forall k | 0 <= k < |r|
      ensures r[k] in ws
    {
      assert r[k] in multiset(r);
    }
  }

  /** A single word is its own sorted list. */
  lemma SortedSingleton(ws: seq<string>)
    requires |ws| == 1
    ensures SortByLength(ws) == ws
  {
    assert ws[..0] == [];
  }
}
