/** The application shuffles with `array.sort(() => 0.5 - Math.random())`.
    The model makes no claim about the distribution: a shuffle is the
    permutation picked by a sequence of random draws, one element at a time
    (a draw past the end of `draws` counts as 0). Every permutation of the
    input can be produced this way and nothing else can. */
module Shuffling {

  function Shuffle<T>(s: seq<T>, draws: seq<nat>): (r: seq<T>)
    ensures |r| == |s|
    ensures multiset(r) == multiset(s)
    decreases |s|
  {
    if s == [] then []
    else
      var k := (if draws == [] then 0 else draws[0]) % |s|;
      RemoveAt(s, k);
      [s[k]] + Shuffle(s[..k] + s[k + 1..], if draws == [] then [] else draws[1..])
  }

  /** Taking out the element at `k` leaves the others. */
  lemma RemoveAt<T>(s: seq<T>, k: nat)
    requires k < |s|
    ensures multiset(s[..k] + s[k + 1..]) + multiset{s[k]} == multiset(s)
  {
    assert s == s[..k] + [s[k]] + s[k + 1..];
  }

  lemma ShuffleMembers<T>(s: seq<T>, draws: seq<nat>, x: T)
    ensures x in Shuffle(s, draws) <==> x in s
  {
    var r := Shuffle(s, draws);
    assert x in r <==> x in multiset(r);
    assert x in s <==> x in multiset(s);
  }
}
