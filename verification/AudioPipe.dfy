/** The ends of an audio pipe that the modelled components talk to.

    `Sink` is what a component sees when it calls `AudioSource::sinkWriteSamples`: either an
    arbitrary downstream component, which may accept any prefix of what it is offered, or an
    `AudioReader`, which accepts samples only while somebody is reading from it. */
module AudioPipe {

  type Sample = real

  function Min(a: int, b: int): int {
    if a <= b then a else b
  }

  function Max(a: int, b: int): int {
    if a >= b then a else b
  }

  class Sink {
    // Everything this end of the pipe has accepted so far, in order.
    ghost var received: seq<Sample>
    // How many writes it has taken nothing of.
    ghost var refusals: nat

    // An AudioReader, or any other sink.
    const isReader: bool

    // The fields of an AudioReader; `readTarget` is the buffer size, 0 when nobody reads.
    var readTarget: nat
    var readBuf: seq<Sample>
    var inputStopped: bool

    ghost predicate Valid()
      reads this
    {
      |readBuf| <= readTarget || readTarget == 0
    }

    // What an AudioReader can still take.
    function Room(): nat
      reads this
    {
      if |readBuf| <= readTarget then readTarget - |readBuf| else 0
    }

    // The reader's buffer, once of this size and content, has taken these samples since.
    ghost predicate Took(target: nat, filled: seq<Sample>, samples: seq<Sample>)
      reads this
    {
      && readTarget == target
      && (target > 0 ==> readBuf == filled + samples)
      && (target == 0 ==> samples == [])
    }

    constructor (reader: bool)
      ensures isReader == reader && received == [] && refusals == 0 && readTarget == 0 && readBuf == [] && !inputStopped
      ensures Valid()
    {
      isReader := reader;
      received, refusals := [], 0;
      readTarget := 0;
      readBuf := [];
      inputStopped := false;
    }

    /** Offers samples and learns how many were taken. */
    method WriteSamples(samples: seq<Sample>) returns (n: nat)
      requires Valid() && 0 < |samples|
      modifies this
      ensures Valid()
      ensures n <= |samples|
      ensures received == old(received) + samples[..n]
      ensures refusals == old(refusals) + if n == 0 then 1 else 0
      ensures readTarget == old(readTarget)
      ensures isReader ==> n == Min(|samples|, old(Room()))
      ensures isReader ==> Took(old(readTarget), old(readBuf), samples[..n])
      ensures isReader ==> (inputStopped <==> n == 0)
    {
      if isReader {
        n := 0;
        if readTarget != 0 {
          n := Min(|samples|, readTarget - |readBuf|);
          readBuf := readBuf + samples[..n];
        }
        inputStopped := n == 0;
      } else {
        n :| 0 <= n <= |samples|;
      }
      received := received + samples[..n];
      refusals := refusals + if n == 0 then 1 else 0;
    }
  }
}
