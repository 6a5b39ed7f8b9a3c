/** The gain of a delay line: an index that walks through a fade table, one step for every sample,
    and the mute that starts and ends the walks (src/async/audio/AsyncAudioDelayLine.h:228-251). */
module Fading {
  import opened AudioPipe

  // A fade table of `len` gains, none when fading is off, and a position moving through it.
  datatype Fader = Fader(len: nat, pos: int, dir: int)

  predicate InTable(f: Fader) {
    0 <= f.pos && (f.len > 0 ==> f.pos < f.len) && -1 <= f.dir <= 1
  }

  // From full gain to none.
  predicate IsTable(table: seq<real>) {
    |table| > 0 ==> |table| >= 2 && table[0] == 1.0 && table[|table| - 1] == 0.0
  }

  function Gain(table: seq<real>, f: Fader): real
    requires InTable(f) && |table| == f.len
  {
    if f.len == 0 then 1.0 else table[f.pos]
  }

  function Scale(x: Sample, gain: real): Sample {
    x * gain
  }

  lemma ScaleUnits(x: Sample)
    ensures Scale(x, 1.0) == x && Scale(x, 0.0) == 0.0
  {
  }

  // The walk stops at either end of the table.
  function Step(f: Fader): (r: Fader)
    ensures r.len == f.len
    ensures InTable(f) ==> InTable(r)
  {
    if f.len == 0 then f
    else
      var p := f.pos + f.dir;
      if f.dir > 0 && p >= f.len - 1 then Fader(f.len, f.len - 1, 0)
      else if f.dir < 0 && p <= 0 then Fader(f.len, 0, 0)
      else Fader(f.len, p, f.dir)
  }

  function Steps(f: Fader, n: nat): (r: Fader)
    ensures r.len == f.len
    ensures InTable(f) ==> InTable(r)
  {
    if n == 0 then f else Step(Steps(f, n - 1))
  }

  // At full gain, and going nowhere else.
  predicate Transparent(f: Fader) {
    f.pos == 0 && f.dir <= 0
  }

  lemma {:induction false} StaysTransparent(f: Fader, n: nat)
    requires InTable(f) && Transparent(f)
    ensures Transparent(Steps(f, n))
  {
    if n > 0 {
      StaysTransparent(f, n - 1);
    }
  }

  lemma {:induction false} FadesOut(f: Fader, n: nat)
    requires InTable(f) && f.len > 0 && f.dir == 1
    ensures Steps(f, n).pos == Min(f.pos + n, f.len - 1)
    ensures n == 0 || f.pos + n < f.len - 1 ==> Steps(f, n).dir == 1
    ensures n > 0 && f.pos + n >= f.len - 1 ==> Steps(f, n).dir == 0
  {
    if n > 0 {
      FadesOut(f, n - 1);
    }
  }

  lemma {:induction false} FadesIn(f: Fader, n: nat)
    requires InTable(f) && f.len > 0 && f.dir == -1
    ensures Steps(f, n).pos == Max(f.pos - n, 0)
    ensures f.pos - n > 0 ==> Steps(f, n).dir == -1
    ensures n > 0 && f.pos - n <= 0 ==> Steps(f, n).dir == 0
  {
    if n > 0 {
      FadesIn(f, n - 1);
    }
  }

  // --- Muting ---

  // A mute lasts until it is ended, or for `left` more samples when that is positive.
  datatype Muting = Muting(fader: Fader, muted: bool, left: nat)

  function Next(m: Muting): Muting {
    var f := Step(m.fader);
    if m.muted && m.left > 0 then
      if m.left == 1 then Muting(f.(dir := -1), false, 0) else Muting(f, true, m.left - 1)
    else Muting(f, m.muted, m.left)
  }

  function After(m: Muting, n: nat): (r: Muting)
    ensures r.fader.len == m.fader.len
    ensures InTable(m.fader) ==> InTable(r.fader)
  {
    if n == 0 then m else Next(After(m, n - 1))
  }

  // What is stored of a block of samples.
  function Faded(samples: seq<Sample>, table: seq<real>, m: Muting): (s: seq<Sample>)
    requires InTable(m.fader) && |table| == m.fader.len
    ensures |s| == |samples|
    ensures forall i :: 0 <= i < |samples| ==> s[i] == Scale(samples[i], Gain(table, After(m, i).fader))
  {
    seq(|samples|, i requires 0 <= i < |samples| => Scale(samples[i], Gain(table, After(m, i).fader)))
  }

  // A mute that is not ending just fades.
  lemma {:induction false} OpenMuteFades(m: Muting, n: nat)
    requires !m.muted || m.left == 0
    ensures After(m, n) == Muting(Steps(m.fader, n), m.muted, m.left)
  {
    if n > 0 {
      OpenMuteFades(m, n - 1);
    }
  }

  /** Without fading the samples pass unchanged. */
  lemma TransparentPasses(samples: seq<Sample>, table: seq<real>, m: Muting)
    requires InTable(m.fader) && |table| == m.fader.len && IsTable(table)
    requires Transparent(m.fader) && !m.muted
    ensures Faded(samples, table, m) == samples
    ensures After(m, |samples|) == Muting(Steps(m.fader, |samples|), false, m.left)
    ensures Transparent(After(m, |samples|).fader)
  {
    OpenMuteFades(m, |samples|);
    StaysTransparent(m.fader, |samples|);
    forall i | 0 <= i < |samples| ensures Faded(samples, table, m)[i] == samples[i] {
      OpenMuteFades(m, i);
      StaysTransparent(m.fader, i);
      ScaleUnits(samples[i]);
    }
  }

  /** On the way out from any position of the table, each sample is multiplied by the next gain, and from
      the end of the table on by the last. */
  lemma FadeOutProfile(samples: seq<Sample>, table: seq<real>, pos: nat, muted: bool)
    requires pos < |table|
    ensures forall i :: 0 <= i < |samples| ==>
              Faded(samples, table, Muting(Fader(|table|, pos, 1), muted, 0))[i] ==
              samples[i] * table[Min(pos + i, |table| - 1)]
  {
    hide After, Steps;
    var m := Muting(Fader(|table|, pos, 1), muted, 0);
    forall i | 0 <= i < |samples| ensures Faded(samples, table, m)[i] == samples[i] * table[Min(pos + i, |table| - 1)] {
      OpenMuteFades(m, i);
      FadesOut(m.fader, i);
    }
  }

  /** On the way in it is the previous gain, down to the first of the table. */
  lemma FadeInProfile(samples: seq<Sample>, table: seq<real>, pos: nat)
    requires pos < |table|
    ensures forall i :: 0 <= i < |samples| ==>
              Faded(samples, table, Muting(Fader(|table|, pos, -1), false, 0))[i] ==
              samples[i] * table[Max(pos - i, 0)]
  {
    hide After, Steps;
    var m := Muting(Fader(|table|, pos, -1), false, 0);
    forall i | 0 <= i < |samples| ensures Faded(samples, table, m)[i] == samples[i] * table[Max(pos - i, 0)] {
      OpenMuteFades(m, i);
      FadesIn(m.fader, i);
    }
  }

  // Silent from the given sample on.
  ghost predicate SilentFrom(s: seq<Sample>, from: nat) {
    forall i :: from <= i < |s| ==> s[i] == 0.0
  }

  // A mute that is on its way to silence, or there.
  predicate HeadsOut(m: Muting) {
    m.muted && m.fader.len > 0 && (m.fader.dir == 1 || (m.fader.dir == 0 && m.fader.pos == m.fader.len - 1))
  }

  // How many more samples are heard at all.
  function StillHeard(m: Muting): nat
    requires InTable(m.fader)
  {
    Max(0, m.fader.len - 1 - m.fader.pos)
  }

  // Only the last gain of the table is zero, as for the curve of the source.
  ghost predicate FadesLast(table: seq<real>) {
    forall i :: 0 <= i < |table| - 1 ==> table[i] > 0.0
  }

  /** A mute without an end silences every input within one fade if and only if it heads out: fading
      is on, and the index is on its way to the end of the table or stands there. */
  lemma MuteSilences(table: seq<real>, m: Muting)
    requires IsTable(table) && FadesLast(table) && InTable(m.fader) && |table| == m.fader.len
    requires m.muted && m.left == 0
    ensures (forall samples :: SilentFrom(Faded(samples, table, m), Max(|table| - 1, 0))) <==> HeadsOut(m)
  {
    hide Scale, Gain, Faded, After, Steps;
    if HeadsOut(m) {
      forall samples ensures SilentFrom(Faded(samples, table, m), |table| - 1) {
        HeadingOutIsSilent(samples, table, m);
      }
    } else {
      LoudWithout(table, m);
    }
  }

  // The input that is heard, a whole fade later, when a mute does not head out.
  lemma LoudWithout(table: seq<real>, m: Muting)
    requires IsTable(table) && FadesLast(table) && InTable(m.fader) && |table| == m.fader.len
    requires m.muted && m.left == 0 && !HeadsOut(m)
    ensures exists samples :: !SilentFrom(Faded(samples, table, m), Max(|table| - 1, 0))
  {
    hide Scale, After, Steps, Faded;
    var last := Max(|table| - 1, 0);
    var loud := seq(last + 1, _ => 1.0);
    OpenMuteFades(m, last);
    if m.fader.len > 0 {
      if m.fader.dir == -1 {
        FadesIn(m.fader, last);
      } else {
        StandsStill(m.fader, last);
      }
    }
    ScaleOne(Gain(table, Steps(m.fader, last)));
    assert Faded(loud, table, m)[last] != 0.0;
  }

  lemma ScaleOne(gain: real)
    ensures Scale(1.0, gain) == gain
  {
  }

  // An index that goes nowhere stays.
  lemma {:induction false} StandsStill(f: Fader, n: nat)
    requires f.len == 0 || (f.dir == 0 && InTable(f))
    ensures Steps(f, n) == f
  {
    if n > 0 {
      StandsStill(f, n - 1);
    }
  }

  // While the mute lasts, nothing is heard once the index is at the end of the table.
  lemma HeadingOutIsSilent(samples: seq<Sample>, table: seq<real>, m: Muting)
    requires IsTable(table) && |table| == m.fader.len && InTable(m.fader) && HeadsOut(m)
    requires m.left == 0 || |samples| <= m.left
    ensures SilentFrom(Faded(samples, table, m), StillHeard(m))
  {
    hide Scale, After, Gain;
    forall i | StillHeard(m) <= i < |samples| ensures Faded(samples, table, m)[i] == 0.0 {
      GainWhileMuted(table, m, i);
      ScaleUnits(samples[i]);
    }
  }

  lemma GainWhileMuted(table: seq<real>, m: Muting, n: nat)
    requires IsTable(table) && |table| == m.fader.len && InTable(m.fader) && HeadsOut(m)
    requires (m.left == 0 || n < m.left) && n >= StillHeard(m)
    ensures Gain(table, After(m, n).fader) == 0.0
  {
    hide After, Steps;
    HeadsOn(m, n);
  }

  /** A mute that heads out goes on doing so while it lasts, and the index moves to the end. */
  lemma HeadsOn(m: Muting, n: nat)
    requires InTable(m.fader) && HeadsOut(m) && (m.left == 0 || n < m.left)
    ensures After(m, n) == Muting(Steps(m.fader, n), true, if m.left == 0 then 0 else m.left - n)
    ensures HeadsOut(After(m, n)) && After(m, n).fader.pos == Min(m.fader.pos + n, m.fader.len - 1)
  {
    hide After, Steps;
    if m.left == 0 {
      OpenMuteFades(m, n);
    } else {
      MuteEnds(m, n);
    }
    if m.fader.dir == 1 {
      FadesOut(m.fader, n);
    } else {
      StandsStill(m.fader, n);
    }
  }

  /** Samples neither set a mute on its way nor take it off. */
  lemma {:induction false} HeadingStays(m: Muting, n: nat)
    requires InTable(m.fader) && (m.fader.len > 0 ==> m.fader.len >= 2) && After(m, n).muted
    ensures HeadsOut(After(m, n)) <==> HeadsOut(m)
  {
    if n > 0 {
      var before := After(m, n - 1);
      HeadingStays(m, n - 1);
      assert before.muted;
    }
  }

  /** Fading out from anywhere in a table heads for silence. */
  lemma FadingOutHeadsOut(f: Fader, count: nat, left: nat)
    requires InTable(f) && f.dir == 1 && f.len > 0
    ensures HeadsOut(Muting(Steps(f, count), true, left)) && f.pos <= Steps(f, count).pos
    ensures count >= f.len ==> Steps(f, count).dir == 0
  {
    hide Steps;
    FadesOut(f, count);
  }

  // With fading off even a mute changes nothing.
  lemma NothingFades(samples: seq<Sample>, m: Muting)
    requires m.fader.len == 0 && InTable(m.fader)
    ensures Faded(samples, [], m) == samples
  {
    hide Scale;
    forall i | 0 <= i < |samples| ensures Faded(samples, [], m)[i] == samples[i] {
      ScaleUnits(samples[i]);
    }
  }

  /** A mute with time left ends after exactly that many samples. */
  lemma {:induction false} MuteEnds(m: Muting, n: nat)
    requires InTable(m.fader) && m.muted && n <= m.left && 0 < m.left
    ensures n < m.left ==> After(m, n) == Muting(Steps(m.fader, n), true, m.left - n)
    ensures n == m.left ==> After(m, n) == Muting(Steps(m.fader, n).(dir := -1), false, 0)
  {
    hide Step;
    if n > 0 {
      MuteEnds(m, n - 1);
    }
  }

  /** One fade later the line is at full gain again. */
  lemma FullGainReturns(m: Muting, n: nat)
    requires InTable(m.fader) && m.muted && 0 < m.left && n > m.left + m.fader.len
    ensures !After(m, n).muted && (m.fader.len > 0 ==> Transparent(After(m, n).fader))
  {
    hide After, Steps;
    var awake, rest := After(m, m.left), n - m.left;
    MuteEnds(m, m.left);
    AfterAdds(m, m.left, rest);
    OpenMuteFades(awake, rest);
    if m.fader.len > 0 {
      FadesIn(awake.fader, rest);
    }
  }

  lemma {:induction false} AfterAdds(m: Muting, a: nat, b: nat)
    ensures After(After(m, a), b) == After(m, a + b)
  {
    hide Next;
    if b > 0 {
      AfterAdds(m, a, b - 1);
    }
  }
}
