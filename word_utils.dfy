/** src/utils/wordUtils.ts: the length of the longest word of a list,
    measured after trimming. */
module WordUtils {

  import opened Text
  import opened Placement

  /** `findLongestWordLength(words)`: `Math.max` of the trimmed lengths and
      `0`, so the greatest trimmed length, or 0 for an empty list. */
  function FindLongestWordLength(words: seq<string>): (r: nat)
    ensures forall i :: 0 <= i < |words| ==> |Trim(words[i])| <= r
    ensures words == [] ==> r == 0
    ensures words != [] ==> exists i :: 0 <= i < |words| && r == |Trim(words[i])|
  {
    if words == [] then 0
    else
      var rest := FindLongestWordLength(words[1..]);
      assert forall i :: 1 <= i < |words| ==> words[i] == words[1..][i - 1];
      assert words[1..] != [] ==> exists i :: 1 <= i < |words| && rest == |Trim(words[i])|;
      Max(|Trim(words[0])|, rest)
  }

  /** The longest length of two lists put together is the larger of their
      longest lengths. */
  lemma {:induction false} LongestConcat(a: seq<string>, b: seq<string>)
    ensures FindLongestWordLength(a + b) == Max(FindLongestWordLength(a), FindLongestWordLength(b))
  {
    if a == [] {
      assert a + b == b;
    } else {
      assert (a + b)[0] == a[0] && (a + b)[1..] == a[1..] + b;
      LongestConcat(a[1..], b);
    }
  }

  /** The result is the least bound: any `n` that bounds every trimmed
      length bounds the result too. */
  lemma LongestIsLeast(words: seq<string>, n: int)
    requires n >= 0
    requires forall i :: 0 <= i < |words| ==> |Trim(words[i])| <= n
    ensures FindLongestWordLength(words) <= n
  {
  }
}
