/** What became of the samples that have left a buffer: each was either handed to the sink or
    thrown away. A log of fates accounts for every sample, in the order they left. */
module Fates {
  import opened AudioPipe

  datatype Fate = Delivered(sample: Sample) | Discarded(sample: Sample)

  function Values(log: seq<Fate>): (s: seq<Sample>)
    ensures |s| == |log|
  {
    if log == [] then [] else Values(log[..|log| - 1]) + [log[|log| - 1].sample]
  }

  function DeliveredOf(log: seq<Fate>): seq<Sample> {
    if log == [] then []
    else
      var last := log[|log| - 1];
      DeliveredOf(log[..|log| - 1]) + if last.Delivered? then [last.sample] else []
  }

  function AllDelivered(s: seq<Sample>): (log: seq<Fate>)
    ensures |log| == |s|
  {
    if s == [] then [] else AllDelivered(s[..|s| - 1]) + [Delivered(s[|s| - 1])]
  }

  function AllDiscarded(s: seq<Sample>): (log: seq<Fate>)
    ensures |log| == |s|
  {
    if s == [] then [] else AllDiscarded(s[..|s| - 1]) + [Discarded(s[|s| - 1])]
  }

  ghost predicate NoDiscards(log: seq<Fate>) {
    forall i :: 0 <= i < |log| ==> log[i].Delivered?
  }

  lemma {:induction false} LogAppends(a: seq<Fate>, b: seq<Fate>)
    ensures DeliveredOf(a + b) == DeliveredOf(a) + DeliveredOf(b)
    ensures Values(a + b) == Values(a) + Values(b)
  {
    if b == [] {
      assert a + b == a;
    } else {
      var init := b[..|b| - 1];
      assert (a + b)[..|a + b| - 1] == a + init;
      LogAppends(a, init);
    }
  }

  lemma {:induction false} AllDeliveredAppends(a: seq<Sample>, b: seq<Sample>)
    ensures AllDelivered(a + b) == AllDelivered(a) + AllDelivered(b)
  {
    if b == [] {
      assert a + b == a;
    } else {
      var init := b[..|b| - 1];
      assert (a + b)[..|a + b| - 1] == a + init;
      AllDeliveredAppends(a, init);
    }
  }

  lemma Regroup(a: seq<Sample>, b: seq<Sample>, c: seq<Sample>)
    ensures (a + b) + c == a + (b + c)
  {
  }

  // Delivering a and then b is delivering a + b.
  lemma DeliveriesJoin(log: seq<Fate>, a: seq<Sample>, b: seq<Sample>)
    ensures (log + AllDelivered(a)) + AllDelivered(b) == log + AllDelivered(a + b)
  {
    hide *;
    AllDeliveredAppends(a, b);
  }

  lemma {:induction false} DeliveredRun(s: seq<Sample>)
    ensures Values(AllDelivered(s)) == s == DeliveredOf(AllDelivered(s))
    ensures NoDiscards(AllDelivered(s))
  {
    if s != [] {
      var init := s[..|s| - 1];
      DeliveredRun(init);
      assert AllDelivered(s)[..|s| - 1] == AllDelivered(init);
    }
  }

  lemma {:induction false} DiscardedRun(s: seq<Sample>)
    ensures Values(AllDiscarded(s)) == s && DeliveredOf(AllDiscarded(s)) == []
  {
    if s != [] {
      var init := s[..|s| - 1];
      DiscardedRun(init);
      assert AllDiscarded(s)[..|s| - 1] == AllDiscarded(init);
    }
  }

  // Delivering the first k buffered samples moves them from the buffer to the log.
  lemma DeliverFront(log: seq<Fate>, buffered: seq<Sample>, k: nat)
    requires k <= |buffered|
    ensures DeliveredOf(log + AllDelivered(buffered[..k])) == DeliveredOf(log) + buffered[..k]
    ensures Values(log + AllDelivered(buffered[..k])) + buffered[k..] == Values(log) + buffered
  {
    hide *;
    LogAppends(log, AllDelivered(buffered[..k]));
    DeliveredRun(buffered[..k]);
    assert buffered == buffered[..k] + buffered[k..];
  }

  lemma DiscardFront(log: seq<Fate>, buffered: seq<Sample>, k: nat)
    requires k <= |buffered|
    ensures DeliveredOf(log + AllDiscarded(buffered[..k])) == DeliveredOf(log)
    ensures Values(log + AllDiscarded(buffered[..k])) + buffered[k..] == Values(log) + buffered
  {
    hide *;
    LogAppends(log, AllDiscarded(buffered[..k]));
    DiscardedRun(buffered[..k]);
    assert buffered == buffered[..k] + buffered[k..];
  }

  lemma DiscardEverything(log: seq<Fate>, buffered: seq<Sample>)
    ensures DeliveredOf(log + AllDiscarded(buffered)) == DeliveredOf(log)
    ensures Values(log + AllDiscarded(buffered)) == Values(log) + buffered
  {
    hide *;
    LogAppends(log, AllDiscarded(buffered));
    DiscardedRun(buffered);
    assert DeliveredOf(log) + [] == DeliveredOf(log);
  }

  // Where nothing was thrown away, the sink received exactly what left the buffer.
  lemma {:induction false} NothingLost(log: seq<Fate>)
    requires NoDiscards(log)
    ensures DeliveredOf(log) == Values(log)
  {
    if log != [] {
      NothingLost(log[..|log| - 1]);
    }
  }

  // `now` is a later state of the log `then`; without loss everything new was delivered.
  ghost predicate Extends(earlier: seq<Fate>, now: seq<Fate>, lossless: bool) {
    earlier <= now && (lossless ==> NoDiscards(now[|earlier|..]))
  }

  lemma ExtendsSelf(log: seq<Fate>, lossless: bool)
    ensures Extends(log, log, lossless)
  {
  }

  lemma ExtendsTrans(a: seq<Fate>, b: seq<Fate>, c: seq<Fate>, lossless: bool)
    requires Extends(a, b, lossless) && Extends(b, c, lossless)
    ensures Extends(a, c, lossless)
  {
    if lossless {
      assert c[|a|..] == b[|a|..] + c[|b|..];
    }
  }

  lemma LosslessExtends(a: seq<Fate>, b: seq<Fate>, lossless: bool)
    requires Extends(a, b, true)
    ensures Extends(a, b, lossless)
  {
  }

  lemma DeliveryExtends(log: seq<Fate>, s: seq<Sample>, lossless: bool)
    ensures Extends(log, log + AllDelivered(s), lossless)
  {
    DeliveredRun(s);
    assert (log + AllDelivered(s))[|log|..] == AllDelivered(s);
  }
}
