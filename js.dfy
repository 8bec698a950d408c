/** The few JavaScript value semantics that the two overlay components rely on:
    optional (possibly `undefined`) values, the truthiness of an optional string
    as used by `&&` and `||` in JSX, and `String.prototype.slice`. */
module Js {

  /** A value that may be `undefined`. */
  datatype Option<+T> = None | Some(value: T)

  /** `s` used as a condition: `undefined` and `""` are falsy, every other string is truthy. */
  predicate Truthy(s: Option<string>)
    ensures Truthy(s) ==> s.Some? && |s.value| > 0
    ensures s.Some? && |s.value| > 0 ==> Truthy(s)
  {
    s.Some? && s.value != ""
  }

  /** `a || fallback` where `a` is an optional string. */
  function OrElse(a: Option<string>, fallback: string): (r: string)
    ensures Truthy(a) ==> r == a.value
    ensures !Truthy(a) ==> r == fallback
    ensures fallback != "" ==> r != ""
  {
    if Truthy(a) then a.value else fallback
  }

  /** How `slice` turns a relative index into a position of a string of length `n`:
      a negative index counts from the end, and the result is clamped to `0..n`. */
  function RelativeIndex(i: int, n: nat): (k: nat)
    ensures k <= n
    ensures 0 <= i ==> k == if i < n then i else n
    ensures i < 0 ==> k == if n + i < 0 then 0 else n + i
  {
    if i < 0 then (if n + i < 0 then 0 else n + i)
    else if i < n then i
    else n
  }

  /** `s.slice(start)` when `end` is `None`, and `s.slice(start, end)` otherwise. */
  function Slice(s: string, start: int, end: Option<int>): (r: string)
    ensures |r| <= |s|
    ensures var from := RelativeIndex(start, |s|);
            from + |r| <= |s| && r == s[from..from + |r|]
    ensures var from := RelativeIndex(start, |s|);
            var to := if end.None? then |s| else RelativeIndex(end.value, |s|);
            |r| == (if from < to then to - from else 0)
  {
    var from := RelativeIndex(start, |s|);
    var to := if end.None? then |s| else RelativeIndex(end.value, |s|);
    if from < to then s[from..to] else ""
  }

  /** `s.slice(0, k)` keeps the first `k` characters, or all of a shorter string. */
  lemma SliceHead(s: string, k: nat)
    ensures Slice(s, 0, Some(k)) == s[..if k < |s| then k else |s|]
  {
  }

  /** `s.slice(-k)` keeps the last `k` characters, or all of a shorter string. */
  lemma SliceTail(s: string, k: int)
    requires 0 < k
    ensures Slice(s, -k, None) == s[if k < |s| then |s| - k else 0..]
  {
  }
}
