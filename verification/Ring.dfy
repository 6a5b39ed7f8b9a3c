/** Ring buffers: `n` samples of the array contents `s`, starting at index `tail` and wrapping. */
module Ring {
  import opened AudioPipe

  // Steps `step` slots forward from `at`, with at most one wrap.
  function Wrap(at: nat, step: nat, size: nat): (r: nat)
    requires at < size && step <= size
    ensures r < size
  {
    if at + step < size then at + step else at + step - size
  }

  function Window(s: seq<Sample>, tail: nat, n: nat): (r: seq<Sample>)
    requires tail < |s| && n <= |s|
    ensures |r| == n
  {
    if tail + n <= |s| then s[tail..tail + n] else s[tail..] + s[..tail + n - |s|]
  }

  lemma MultipleIsFarFromZero(d: int, k: int)
    requires 0 < d
    ensures k >= 1 ==> d * k >= d
    ensures k <= -1 ==> d * k <= -d
  {
    if k >= 1 {
      assert d * (k - 1) >= 0;
    } else if k <= -1 {
      assert d * (k + 1) <= 0;
    }
  }

  lemma DivModUnique(a: int, d: int, q: int, r: int)
    requires 0 < d && 0 <= r < d && a == d * q + r
    ensures a / d == q && a % d == r
  {
    var q', r' := a / d, a % d;
    assert d * (q' - q) == d * q' - d * q;
    MultipleIsFarFromZero(d, q' - q);
  }

  // The source steps with `%`.
  lemma ModIsWrap(at: nat, step: nat, size: nat)
    requires at < size && step <= size
    ensures (at + step) % size == Wrap(at, step, size)
  {
    DivModUnique(at + step, size, if at + step < size then 0 else 1, Wrap(at, step, size));
  }

  method Advance(at: nat, step: nat, size: nat) returns (r: nat)
    requires at < size && step <= size
    ensures r == Wrap(at, step, size)
  {
    ModIsWrap(at, step, size);
    r := (at + step) % size;
  }

  // The number of samples between tail and head, as the source computes it.
  lemma DistanceIsCount(tail: nat, n: nat, size: nat)
    requires tail < size && n < size
    ensures (Wrap(tail, n, size) - tail + size) % size == n
  {
    var head := Wrap(tail, n, size);
    if tail + n < size {
      DivModUnique(head - tail + size, size, 1, n);
    } else {
      DivModUnique(head - tail + size, size, 0, n);
    }
  }

  method Distance(tail: nat, head: nat, size: nat) returns (n: nat)
    requires tail < size && head < size
    ensures n < size && head == Wrap(tail, n, size)
  {
    n := if tail <= head then head - tail else head - tail + size;
    DistanceIsCount(tail, n, size);
    n := (head - tail + size) % size;
  }

  // Storing one sample at the head appends it.
  lemma PushAppends(s: seq<Sample>, tail: nat, n: nat, x: Sample)
    requires tail < |s| && n < |s|
    ensures Window(s[Wrap(tail, n, |s|) := x], tail, n + 1) == Window(s, tail, n) + [x]
  {
  }

  lemma WindowAt(s: seq<Sample>, tail: nat, n: nat, i: nat)
    requires tail < |s| && i < n <= |s|
    ensures Window(s, tail, n)[i] == s[Wrap(tail, i, |s|)]
  {
  }

  lemma WrapAdds(at: nat, k: nat, i: nat, size: nat)
    requires at < size && k + i <= size
    ensures Wrap(Wrap(at, k, size), i, size) == Wrap(at, k + i, size)
  {
  }

  // Advancing the tail by k drops the k oldest samples.
  lemma AdvanceDrops(s: seq<Sample>, tail: nat, n: nat, k: nat)
    requires tail < |s| && k <= n <= |s|
    ensures Window(s, Wrap(tail, k, |s|), n - k) == Window(s, tail, n)[k..]
  {
    hide Window, Wrap;
    var was, now := Window(s, tail, n), Window(s, Wrap(tail, k, |s|), n - k);
    forall i | 0 <= i < n - k ensures now[i] == was[k..][i] {
      WindowAt(s, Wrap(tail, k, |s|), n - k, i);
      WindowAt(s, tail, n, k + i);
      WrapAdds(tail, k, i, |s|);
    }
  }

  // Up to the end of the array the oldest samples are a slice of it.
  lemma FrontIsSlice(s: seq<Sample>, tail: nat, n: nat, k: nat)
    requires tail < |s| && k <= n <= |s| && tail + k <= |s|
    ensures s[tail..tail + k] == Window(s, tail, n)[..k]
  {
  }

  // How many samples are between tail and head; a full ring has both in the same place.
  function CountOf(head: nat, tail: nat, isFull: bool, size: nat): (n: nat)
    requires head < size && tail < size && (isFull ==> head == tail)
    ensures n <= size && head == Wrap(tail, n, size) && (n == size <==> isFull)
  {
    if isFull then size else if tail <= head then head - tail else head - tail + size
  }

  // Taking out the k oldest samples.
  lemma TakeOut(s: seq<Sample>, head: nat, tail: nat, isFull: bool, k: nat)
    requires head < |s| && tail < |s| && (isFull ==> head == tail)
    requires k <= CountOf(head, tail, isFull, |s|)
    ensures isFull && k == 0 ==> head == Wrap(tail, k, |s|)
    ensures CountOf(head, Wrap(tail, k, |s|), isFull && k == 0, |s|) == CountOf(head, tail, isFull, |s|) - k
    ensures Window(s, Wrap(tail, k, |s|), CountOf(head, tail, isFull, |s|) - k) ==
            Window(s, tail, CountOf(head, tail, isFull, |s|))[k..]
  {
    hide Window;
    AdvanceDrops(s, tail, CountOf(head, tail, isFull, |s|), k);
  }

  // The longest unwrapped run of the n oldest samples that one write of at most so many may carry.
  method OldestRun(buf: array<Sample>, tail: nat, n: nat, most: nat) returns (run: seq<Sample>)
    requires tail < buf.Length && 0 < n <= buf.Length && 0 < most
    ensures |run| == Min(Min(most, n), buf.Length - tail) && 0 < |run| <= n
    ensures run == Window(buf[..], tail, n)[..|run|]
  {
    var samplesToWrite := Min(most, n);
    samplesToWrite := Min(samplesToWrite, buf.Length - tail);
    FrontIsSlice(buf[..], tail, n, samplesToWrite);
    run := buf[tail..tail + samplesToWrite];
  }
}
