// The callback-driven iteration shared by the containers' *_foreach
// functions: the callback is called on each element in order until it
// returns false.
module Iteration {
  /** How many callback calls a foreach makes: up to and including the first false. */
  function CallsMade<T>(s: seq<T>, cb: T -> bool): (r: nat)
    ensures r <= |s|
    ensures forall j :: 0 <= j < r - 1 ==> cb(s[j])
    ensures r < |s| ==> r > 0 && !cb(s[r - 1])
    ensures |s| > 0 ==> r > 0
  {
    if |s| == 0 then 0
    else if cb(s[0]) then 1 + CallsMade(s[1..], cb)
    else 1
  }

  /** Calls always continue until the end when the callback never says stop. */
  lemma {:induction false} CallsMadeAll<T>(s: seq<T>, cb: T -> bool)
    requires forall j :: 0 <= j < |s| - 1 ==> cb(s[j])
    ensures CallsMade(s, cb) == |s|
  {
    if |s| > 0 {
      if |s| > 1 {
        CallsMadeAll(s[1..], cb);
      }
    }
  }
}
