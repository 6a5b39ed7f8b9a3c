/** The mixer's timeline: for every output sample, what each source contributed to it. */
module MixTrack {
  import opened AudioPipe

  // What one source put into one output sample: one of its samples, or nothing while inactive.
  datatype Part = Silent | Played(sample: Sample)

  type Track = seq<Part>

  function Level(p: Part): Sample {
    if p.Played? then p.sample else 0.0
  }

  function AllPlayed(s: seq<Sample>): (t: Track)
    ensures |t| == |s|
    ensures forall k :: 0 <= k < |s| ==> t[k] == Played(s[k])
  {
    seq(|s|, k requires 0 <= k < |s| => Played(s[k]))
  }

  function AllSilent(n: nat): (t: Track)
    ensures |t| == n
    ensures forall k :: 0 <= k < n ==> t[k] == Silent
  {
    seq(n, k => Silent)
  }

  // The samples a track used, in order.
  function SamplesOf(t: Track): seq<Sample> {
    if t == [] then []
    else
      var last := t[|t| - 1];
      SamplesOf(t[..|t| - 1]) + if last.Played? then [last.sample] else []
  }

  lemma {:induction false} SamplesOfAppend(a: Track, b: Track)
    ensures SamplesOf(a + b) == SamplesOf(a) + SamplesOf(b)
  {
    if b == [] {
      assert a + b == a;
    } else {
      assert (a + b)[..|a + b| - 1] == a + b[..|b| - 1];
      SamplesOfAppend(a, b[..|b| - 1]);
    }
  }

  lemma {:induction false} SamplesOfPlayed(s: seq<Sample>)
    ensures SamplesOf(AllPlayed(s)) == s
  {
    if s != [] {
      assert AllPlayed(s)[..|s| - 1] == AllPlayed(s[..|s| - 1]);
      SamplesOfPlayed(s[..|s| - 1]);
    }
  }

  lemma {:induction false} SamplesOfSilent(n: nat)
    ensures SamplesOf(AllSilent(n)) == []
  {
    if n > 0 {
      assert AllSilent(n)[..n - 1] == AllSilent(n - 1);
      SamplesOfSilent(n - 1);
    }
  }

  ghost predicate Aligned(tracks: seq<Track>, n: nat) {
    forall i :: 0 <= i < |tracks| ==> |tracks[i]| == n
  }

  // The sum over the first m tracks at position k.
  function MixAt(tracks: seq<Track>, m: nat, k: nat): Sample
    requires m <= |tracks| && forall i :: 0 <= i < |tracks| ==> k < |tracks[i]|
  {
    if m == 0 then 0.0 else MixAt(tracks, m - 1, k) + Level(tracks[m - 1][k])
  }

  // A stream is the mix of its tracks.
  ghost predicate IsMix(stream: seq<Sample>, tracks: seq<Track>) {
    && Aligned(tracks, |stream|)
    && forall k :: 0 <= k < |stream| ==> stream[k] == MixAt(tracks, |tracks|, k)
  }

  function Join(tracks: seq<Track>, more: seq<Track>): (result: seq<Track>)
    requires |tracks| == |more|
    ensures Appended(tracks, more, result)
  {
    seq(|tracks|, i requires 0 <= i < |tracks| => tracks[i] + more[i])
  }

  ghost predicate Appended(tracks: seq<Track>, more: seq<Track>, result: seq<Track>) {
    |tracks| == |more| == |result| && forall i :: 0 <= i < |tracks| ==> result[i] == tracks[i] + more[i]
  }

  lemma {:induction false} MixAtAppend(tracks: seq<Track>, more: seq<Track>, result: seq<Track>, n: nat, k: nat, m: nat)
    requires Appended(tracks, more, result) && m <= |result| && Aligned(tracks, n)
    requires forall i :: 0 <= i < |result| ==> k < |result[i]|
    ensures k < n ==> MixAt(result, m, k) == MixAt(tracks, m, k)
    ensures k >= n ==>
              (forall i :: 0 <= i < |more| ==> k - n < |more[i]|) && MixAt(result, m, k) == MixAt(more, m, k - n)
  {
    if k >= n {
      forall i | 0 <= i < |more| ensures k - n < |more[i]| {
        assert result[i] == tracks[i] + more[i];
      }
    }
    if m > 0 {
      assert result[m - 1] == tracks[m - 1] + more[m - 1];
      MixAtAppend(tracks, more, result, n, k, m - 1);
    }
  }

  // Mixing one more block extends the mixed stream.
  lemma MixAppends(stream: seq<Sample>, tracks: seq<Track>, block: seq<Sample>, more: seq<Track>, result: seq<Track>)
    requires IsMix(stream, tracks) && IsMix(block, more) && Appended(tracks, more, result)
    ensures IsMix(stream + block, result)
  {
    forall i | 0 <= i < |result| ensures |result[i]| == |stream + block| {
      assert result[i] == tracks[i] + more[i];
    }
    forall k | 0 <= k < |stream + block| ensures (stream + block)[k] == MixAt(result, |result|, k) {
      MixAtAppend(tracks, more, result, |stream|, k, |result|);
    }
  }

  // Adding one more track onto a mixed block.
  lemma MixOneMore(block: seq<Sample>, tracks: seq<Track>, t: Track, louder: seq<Sample>)
    requires IsMix(block, tracks) && |t| == |block| == |louder|
    requires forall k :: 0 <= k < |block| ==> louder[k] == block[k] + Level(t[k])
    ensures IsMix(louder, tracks + [t])
  {
    forall k | 0 <= k < |block| ensures louder[k] == MixAt(tracks + [t], |tracks| + 1, k) {
      MixAtPrefix(tracks, t, |tracks|, k);
    }
  }

  /** The mix of a single track is its samples, and silence where it has none. */
  lemma LoneTrack(stream: seq<Sample>, t: Track)
    requires IsMix(stream, [t])
    ensures |t| == |stream|
    ensures forall k :: 0 <= k < |stream| && t[k].Played? ==> stream[k] == t[k].sample
    ensures forall k :: 0 <= k < |stream| && t[k].Silent? ==> stream[k] == 0.0
  {
    assert [t][0] == t;
    forall k | 0 <= k < |stream| ensures stream[k] == Level(t[k]) {
      assert MixAt([t], 1, k) == MixAt([t], 0, k) + Level([t][0][k]);
    }
  }

  /** The mix of two groups of tracks is the sum of their mixes. */
  lemma MixesAdd(x: seq<Sample>, a: seq<Track>, y: seq<Sample>, b: seq<Track>, sum: seq<Sample>)
    requires IsMix(x, a) && IsMix(y, b) && |x| == |y| == |sum|
    requires forall k :: 0 <= k < |sum| ==> sum[k] == x[k] + y[k]
    ensures IsMix(sum, a + b)
  {
    forall k | 0 <= k < |sum| ensures sum[k] == MixAt(a + b, |a + b|, k) {
      MixAtAdds(a, b, |b|, k);
    }
  }

  lemma {:induction false} MixAtAdds(a: seq<Track>, b: seq<Track>, m: nat, k: nat)
    requires m <= |b| && forall i :: 0 <= i < |a| ==> k < |a[i]|
    requires forall i :: 0 <= i < |b| ==> k < |b[i]|
    ensures MixAt(a + b, |a| + m, k) == MixAt(a, |a|, k) + MixAt(b, m, k)
  {
    if m == 0 {
      MixAtFront(a, b, |a|, k);
    } else {
      MixAtAdds(a, b, m - 1, k);
    }
  }

  lemma {:induction false} MixAtFront(a: seq<Track>, b: seq<Track>, m: nat, k: nat)
    requires m <= |a| && forall i :: 0 <= i < |a| ==> k < |a[i]|
    requires forall i :: 0 <= i < |b| ==> k < |b[i]|
    ensures MixAt(a + b, m, k) == MixAt(a, m, k)
  {
    if m > 0 {
      MixAtFront(a, b, m - 1, k);
    }
  }

  lemma SilenceIsEmptyMix(block: seq<Sample>)
    requires forall k :: 0 <= k < |block| ==> block[k] == 0.0
    ensures IsMix(block, [])
  {
  }

  // A track that was silent so far changes nothing.
  lemma {:induction false} MixAtPrefix(tracks: seq<Track>, t: Track, m: nat, k: nat)
    requires m <= |tracks| && k < |t| && forall i :: 0 <= i < |tracks| ==> k < |tracks[i]|
    ensures MixAt(tracks + [t], m, k) == MixAt(tracks, m, k)
  {
    if m > 0 {
      MixAtPrefix(tracks, t, m - 1, k);
    }
  }

  lemma SilentTrackIsNeutral(stream: seq<Sample>, tracks: seq<Track>)
    requires IsMix(stream, tracks)
    ensures IsMix(stream, tracks + [AllSilent(|stream|)])
  {
    var t := AllSilent(|stream|);
    forall k | 0 <= k < |stream| ensures stream[k] == MixAt(tracks + [t], |tracks| + 1, k) {
      MixAtPrefix(tracks, t, |tracks|, k);
    }
  }
}
