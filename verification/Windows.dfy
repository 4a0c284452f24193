/** Time stamps that are still recent, and the larger of two numbers. */
module Windows {

  function Max(a: int, b: int): int {
    if a >= b then a else b
  }

  /** The stamps less than span before now, in order. */
  function Within(times: seq<int>, now: int, span: int): seq<int> {
    if times == [] then []
    else
      Within(times[..|times| - 1], now, span) +
      (if now - times[|times| - 1] < span then [times[|times| - 1]] else [])
  }

  ghost predicate SortedTimes(times: seq<int>) {
    forall i, j :: 0 <= i < j < |times| ==> times[i] <= times[j]
  }

  /** On non-decreasing times the filter keeps a suffix. */
  lemma {:induction false} WithinSuffix(times: seq<int>, now: int, span: int) returns (m: nat)
    requires SortedTimes(times)
    ensures m <= |times| && Within(times, now, span) == times[m..]
    ensures forall i :: 0 <= i < m ==> now - times[i] >= span
    ensures forall i :: m <= i < |times| ==> now - times[i] < span
  {
    hide SortedTimes;
    m := 0;
    if times != [] {
      var n := |times| - 1;
      var init := times[..n];
      SortedInit(times);
      var k := WithinSuffix(init, now, span);
      assert forall i :: 0 <= i < n ==> init[i] == times[i];
      if now - times[n] < span {
        m := k;
        assert init[k..] + [times[n]] == times[k..];
      } else {
        m := n + 1;
        assert n > 0 ==> now - init[n - 1] >= span;
        assert k == n;
      }
    }
  }

  lemma SortedInit(times: seq<int>)
    requires SortedTimes(times) && times != []
    ensures SortedTimes(times[..|times| - 1])
    ensures forall i :: 0 <= i < |times| - 1 ==> times[i] <= times[|times| - 1]
  {
  }
}
