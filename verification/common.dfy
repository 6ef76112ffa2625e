// Shared vocabulary: optional values and the daemon's clock.
module Common {
  datatype Option<+T> = None | Some(value: T)

  newtype Byte = x: int | 0 <= x < 256

  type Bytes = seq<Byte>

  // The clock is read in integer nanoseconds and never runs backwards.
  const SECOND: int := 1_000_000_000
  const MINUTE: int := 60 * SECOND
  const HOUR: int := 60 * MINUTE

  // Whole seconds since the epoch, rounded towards the past, as `time.Time.Unix` does.
  function Unix(t: int): (s: int)
    ensures s * SECOND <= t < (s + 1) * SECOND
  {
    t / SECOND
  }

  function Max(a: int, b: int): int {
    if a < b then b else a
  }

  function Min(a: int, b: int): int {
    if a < b then a else b
  }

  // n * x, unfolded one summand at a time
  function Product(n: nat, x: nat): nat {
    if n == 0 then 0 else x + Product(n - 1, x)
  }

  lemma {:induction false} ProductIsTimes(n: nat, x: nat)
    ensures Product(n, x) == n * x
  {
    if n > 0 {
      ProductIsTimes(n - 1, x);
      assert n * x == (n - 1) * x + x;
    }
  }

  // ---- Sums ----

  function Total(s: seq<int>): int {
    if s == [] then 0 else Total(s[..|s| - 1]) + s[|s| - 1]
  }

  lemma TotalAppend(s: seq<int>, x: int)
    ensures Total(s + [x]) == Total(s) + x
  {
    assert (s + [x])[..|s|] == s;
  }

  function Sum(s: seq<nat>): nat {
    if s == [] then 0 else s[0] + Sum(s[1..])
  }

  lemma {:induction false} SumUpdate(s: seq<nat>, i: nat, v: nat)
    requires i < |s|
    ensures Sum(s[i := v]) == Sum(s) - s[i] + v
    decreases |s|
  {
    if i > 0 {
      assert s[i := v][1..] == s[1..][i - 1 := v];
      SumUpdate(s[1..], i - 1, v);
    } else {
      assert s[i := v][1..] == s[1..];
    }
  }

  ghost predicate AtMost(s: seq<nat>, most: nat) {
    forall i | 0 <= i < |s| :: s[i] <= most
  }

  lemma {:induction false} SumAtMost(s: seq<nat>, most: nat)
    requires AtMost(s, most)
    ensures Sum(s) <= |s| * most
    decreases |s|
  {
    if s != [] {
      SumAtMost(s[1..], most);
      assert |s| * most == (|s| - 1) * most + most;
    }
  }

  // One summand aside, the rest come to at most (N - 1) * most.
  lemma SumOfOthers(s: seq<nat>, i: nat, most: nat)
    requires i < |s| && s[i] == 0 && AtMost(s, most)
    ensures Sum(s) <= (|s| - 1) * most
  {
    var rest := s[..i] + s[i + 1..];
    SumSplit(s, i);
    SumAtMost(rest, most);
  }

  lemma {:induction false} SumSplit(s: seq<nat>, i: nat)
    requires i < |s|
    ensures Sum(s) == s[i] + Sum(s[..i] + s[i + 1..])
    decreases |s|
  {
    var rest := s[..i] + s[i + 1..];
    if i > 0 {
      SumSplit(s[1..], i - 1);
      assert rest[1..] == s[1..][..i - 1] + s[1..][i..];
    } else {
      assert rest == s[1..];
    }
  }

  lemma {:induction false} AllZero(n: nat)
    ensures Sum(seq(n, _ => 0)) == 0
  {
    if n > 0 {
      assert seq(n, _ => 0)[1..] == seq(n - 1, _ => 0);
      AllZero(n - 1);
    }
  }

  // The callers below `k` are at `first`, the others still at `rest`.
  function FirstOnes(callers: nat, k: nat, first: nat, rest: nat): seq<nat> {
    seq(callers, i => if i < k then first else rest)
  }

  lemma FirstOnesNext(callers: nat, k: nat, first: nat, rest: nat)
    requires k < callers
    ensures FirstOnes(callers, k, first, rest)[k := first] == FirstOnes(callers, k + 1, first, rest)
  {
  }

  lemma FirstOnesEnds(callers: nat, first: nat, rest: nat)
    ensures FirstOnes(callers, callers, first, rest) == FirstOnes(callers, 0, rest, first) == seq(callers, _ => first)
  {
  }
}
