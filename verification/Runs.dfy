/** Runs of consecutive numbers, and small facts about concatenation. */
module Runs {

  /** The `n` numbers from `start`. */
  function Run(start: int, n: nat): (s: seq<int>)
    ensures |s| == n
  {
    if n == 0 then [] else Run(start, n - 1) + [start + n - 1]
  }

  lemma {:induction false} RunAt(start: int, n: nat, k: nat)
    requires k < n
    ensures Run(start, n)[k] == start + k
  {
    if k < n - 1 { RunAt(start, n - 1, k); }
  }

  lemma {:induction false} RunAdd(start: int, n: nat, m: nat)
    ensures Run(start, n) + Run(start + n, m) == Run(start, n + m)
    decreases m
  {
    if m > 0 { RunAdd(start, n, m - 1); }
  }

  lemma ConcatAt<T>(s: seq<T>, t: seq<T>, k: nat)
    requires k < |t|
    ensures (s + t)[|s| + k] == t[k]
  {
  }

  lemma ConcatAssoc<T>(r: seq<T>, s: seq<T>, t: seq<T>)
    ensures (r + s) + t == r + (s + t)
  {
  }

  lemma PrefixAt<T>(s: seq<T>, t: seq<T>, k: nat)
    requires s <= t && k < |s|
    ensures k < |t| && t[k] == s[k]
  {
  }
}
