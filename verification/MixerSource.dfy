/** One input of the mixer: an AudioFifo whose sink is an AudioReader, so that samples stay in
    the FIFO until the mixer reads them (src/async/audio/AsyncAudioMixer.cpp:85-154). */
module MixerSource {
  import opened AudioPipe
  import opened Ring
  import opened Fates
  import opened Fifo

  const OUTBUF_SIZE: nat := 256

  class MixerSrc {
    const fifo: AudioFifo
    const reader: Sink
    var isFlushed: bool
    var doFlush: bool

    ghost const ring: array<Sample>

    // History: flushes asked for, answered and given up, acknowledgements that nobody was waiting
    // for, and whether a flush is still owed an answer.
    ghost var requests: nat
    ghost var answers: nat
    ghost var cancels: nat
    ghost var extras: nat
    ghost var owed: bool
    // Flushes that went ahead to the FIFO with samples still unread; those of them that were answered
    // when the samples were read, which is before they are with the sink of the mixer; and those that
    // were given up.
    ghost var jumps: nat
    ghost var early: nat
    ghost var undone: nat

    ghost function Repr(): set<object> {
      {this, fifo, reader, ring}
    }

    // The FIFO behind its reader.
    ghost predicate Parking()
      reads fifo, ring, reader
    {
      && fifo.fifo == ring && fifo.sink == reader && ring.Length == OUTBUF_SIZE
      && fifo.Valid() && fifo.Parked()
      && fifo.bufferingEnabled && !fifo.disableBufferingWhenFlushed && !fifo.doOverwrite
      && !fifo.prebuf && fifo.prebufSamples == 0
      && Extends([], fifo.taken, true)
      // Whatever is buffered waits for the reader.
      && (fifo.Count() > 0 ==> fifo.outputStopped && reader.inputStopped)
      // The reader acknowledges at once, so that only what is buffered can be flushing.
      && (fifo.isFlushing ==> fifo.Count() > 0)
    }

    // Every flush is answered once, given up because of new samples, or still owed an answer.
    ghost predicate LedgerOK()
      reads `requests, `answers, `cancels, `extras, `owed, fifo`acks
    {
      && requests == answers + cancels + (if owed then 1 else 0)
      && fifo.acks == answers + extras
    }

    ghost predicate Core()
      reads this, fifo, ring, reader
    {
      Parking() && LedgerOK() && (doFlush ==> isFlushed)
    }

    // A flush waits in the FIFO for the samples before it, past the mixer.
    ghost predicate Ahead()
      reads fifo`isFlushing
    {
      fifo.isFlushing
    }

    ghost predicate JumpsOK()
      reads `jumps, `early, `undone, fifo`isFlushing
    {
      jumps == early + undone + if Ahead() then 1 else 0
    }

    ghost predicate Valid()
      reads this, fifo, ring, reader
      ensures Valid() ==> Core()
    {
      // An open flush waits for the mixer, or in the FIFO for the samples before it.
      && Core() && (owed ==> doFlush || fifo.isFlushing)
      && (fifo.isFlushing || (doFlush && fifo.Count() > 0) ==> owed)
      && JumpsOK()
    }

    // What is buffered and not yet read.
    ghost function Unread(): seq<Sample>
      reads this, fifo, ring, reader
      requires Core()
    {
      fifo.Contents()
    }

    // The stream the mixer has read.
    ghost function Read(): seq<Sample>
      reads reader
    {
      reader.received
    }

    constructor ()
      ensures Valid() && fresh(Repr())
      ensures Unread() == [] && Read() == [] && fifo.accepted == []
      ensures isFlushed && !doFlush && !owed && requests == answers == cancels == extras == 0
      ensures jumps == early == undone == 0
    {
      var sink := new Sink(true);
      var queue := new AudioFifo(OUTBUF_SIZE, sink);
      reader := sink;
      fifo := queue;
      ring := queue.fifo;
      isFlushed := true;
      doFlush := false;
      requests, answers, cancels, extras, owed := 0, 0, 0, 0, false;
      jumps, early, undone := 0, 0, 0;
    }

    // Every accepted sample is either read or still buffered, in order.
    lemma Conserves()
      requires Valid()
      ensures fifo.accepted == Read() + Unread()
    {
      LosslessConserves(fifo);
    }

    predicate IsActive()
      reads this, fifo, ring, reader
      requires Valid()
      ensures IsActive() <==> !isFlushed || Unread() != []
    {
      !isFlushed || !fifo.Empty()
    }

    lemma FlushingIsFlushed()
      requires Valid() && doFlush
      ensures isFlushed
    {
    }

    // With nothing buffered, an open flush waits for the mixer.
    lemma OwedWaitsForMixer()
      requires Valid() && owed && Unread() == []
      ensures doFlush
    {
    }

    // A flush with unread samples before it has not been answered.
    lemma FlushedIsOwed()
      requires Valid() && doFlush && Unread() != []
      ensures owed
    {
    }

    method SamplesInFifo() returns (n: nat)
      requires Valid()
      ensures n == |Unread()| <= OUTBUF_SIZE
    {
      n := fifo.SamplesInFifo(false);
    }

    // --- What the FIFO does ---

    method WriteFifo(samples: seq<Sample>) returns (n: nat)
      requires Parking() && 0 < |samples|
      modifies fifo, reader, ring
      ensures Parking() && n <= |samples| && fifo.acks == old(fifo.acks)
      ensures fifo.accepted == old(fifo.accepted) + samples[..n] && Read() == old(Read())
      ensures old(fifo.Count()) < OUTBUF_SIZE ==> 0 < n && (n == |samples| || fifo.Count() == OUTBUF_SIZE)
      ensures fifo.Count() > 0 && !fifo.isFlushing
    {
      hide Values, DeliveredOf, Extends, CountOf, Window;
      ghost var taken0 := fifo.taken;
      LosslessConserves(fifo);
      n := fifo.WriteSamples(samples);
      ExtendsTrans([], taken0, fifo.taken, true);
      LosslessConserves(fifo);
    }

    // Nothing can leave the FIFO, because nobody is reading.
    method FlushFifo()
      requires Parking()
      modifies fifo, reader, ring
      ensures Parking() && fifo.Contents() == old(fifo.Contents()) && Read() == old(Read())
      ensures fifo.accepted == old(fifo.accepted)
      ensures fifo.acks == old(fifo.acks) + if fifo.Count() == 0 then 1 else 0
      ensures fifo.isFlushing <==> fifo.Count() > 0
    {
      hide Values, DeliveredOf, Extends, CountOf, Window;
      ghost var taken0 := fifo.taken;
      LosslessConserves(fifo);
      fifo.FlushSamples();
      ExtendsTrans([], taken0, fifo.taken, true);
      LosslessConserves(fifo);
    }

    /** AudioReader::readSamples: lets the FIFO write into the reader's buffer, which it fills. */
    method ReadFifo(count: nat) returns (samples: seq<Sample>)
      requires Parking() && 0 < count <= fifo.Count()
      modifies fifo, reader, ring
      ensures Parking() && |samples| == count
      ensures samples == old(fifo.Contents())[..count] && fifo.Contents() == old(fifo.Contents())[count..]
      ensures Read() == old(Read()) + samples && fifo.accepted == old(fifo.accepted)
      ensures fifo.acks == old(fifo.acks) + if old(fifo.isFlushing) && !fifo.isFlushing then 1 else 0
      ensures fifo.isFlushing <==> old(fifo.isFlushing) && fifo.Count() > 0
    {
      hide Values, DeliveredOf, Extends, Window, CountOf, Wrap;
      ghost var taken0, before := fifo.taken, fifo.Contents();
      reader.readBuf, reader.readTarget := [], count;
      if reader.inputStopped {
        reader.inputStopped := false;
        fifo.ResumeOutput();
      }
      ExtendsTrans([], taken0, fifo.taken, true);
      ghost var k := |before| - fifo.Count();
      assert reader.readBuf == before[..k] && k <= count;
      assert fifo.Count() > 0 ==> k == count;
      reader.readTarget := 0;
      samples := reader.readBuf;
    }

    // --- What becomes of flushes ---

    // A flush is owed an answer, unless one is already.
    ghost method NoteRequest()
      requires LedgerOK()
      modifies this`requests, this`owed
      ensures LedgerOK() && owed && requests == old(requests) + if old(owed) then 0 else 1
    {
      if !owed {
        requests := requests + 1;
      }
      owed := true;
    }

    ghost method NoteWrite()
      requires LedgerOK()
      modifies this`cancels, this`owed, this`undone
      ensures LedgerOK() && !owed && cancels == old(cancels) + if old(owed) then 1 else 0
      ensures undone == old(undone) + if Ahead() then 1 else 0
    {
      if owed {
        cancels := cancels + 1;
      }
      if Ahead() {
        undone := undone + 1;
      }
      owed := false;
    }

    // An acknowledgement answers a flush if one is owed an answer.
    ghost method NoteAcknowledgement(acks0: nat)
      requires requests == answers + cancels + (if owed then 1 else 0)
      requires acks0 == answers + extras && acks0 <= fifo.acks <= acks0 + 1
      modifies this`answers, this`extras, this`owed
      ensures LedgerOK()
      ensures fifo.acks > acks0 ==> !owed && answers == old(answers) + if old(owed) then 1 else 0
      ensures fifo.acks == acks0 ==> owed == old(owed) && answers == old(answers)
    {
      if fifo.acks > acks0 {
        if owed {
          answers := answers + 1;
        } else {
          extras := extras + 1;
        }
        owed := false;
      }
    }

    // --- Operations ---

    /** Samples stay in the FIFO. A flush that is still owed an answer is given up. */
    method WriteSamples(samples: seq<Sample>) returns (n: nat)
      requires Valid() && 0 < |samples|
      modifies Repr()
      ensures Valid() && n <= |samples|
      ensures |old(Unread())| < OUTBUF_SIZE ==> 0 < n && (n == |samples| || |Unread()| == OUTBUF_SIZE)
      ensures fifo.accepted == old(fifo.accepted) + samples[..n]
      ensures Read() == old(Read()) && Unread() != []
      ensures !isFlushed && !doFlush && !owed
      ensures cancels == old(cancels) + (if old(owed) then 1 else 0)
      ensures answers == old(answers) && requests == old(requests)
      ensures !Ahead() && undone == old(undone) + (if old(Ahead()) then 1 else 0) && unchanged(`jumps, `early)
    {
      hide Parking;
      isFlushed := false;
      doFlush := false;
      NoteWrite();
      n := WriteFifo(samples);
    }

    /** A flush of an idle source is answered at once, but only the first one: any other waits for
        the mixer to be flushed. */
    method FlushSamples() returns (wakeMixer: bool)
      requires Valid()
      modifies Repr()
      ensures Valid() && Unread() == old(Unread()) && Read() == old(Read())
      ensures fifo.accepted == old(fifo.accepted)
      ensures isFlushed && doFlush && wakeMixer == (Unread() == [])
      ensures requests == old(requests) + (if old(owed) then 0 else 1) && cancels == old(cancels)
      ensures owed <==> !old(isFlushed && !doFlush && Unread() == [])
      ensures answers == old(answers) + if owed then 0 else 1
      ensures Ahead() == old(Ahead()) && unchanged(`jumps, `early, `undone)
    {
      hide Values, DeliveredOf, Extends, CountOf, Window;
      NoteRequest();
      if isFlushed && !doFlush && fifo.Empty() {
        ghost var acks0 := fifo.acks;
        FlushFifo();
        NoteAcknowledgement(acks0);
      }
      isFlushed := true;
      doFlush := true;
      wakeMixer := fifo.Empty();
    }

    /** The mixer has been flushed: a flush that waited for this is answered, or goes ahead to the FIFO,
        if there are unread samples before it. */
    method MixerFlushedAllSamples()
      requires Valid()
      modifies Repr()
      ensures Valid() && Unread() == old(Unread()) && Read() == old(Read())
      ensures fifo.accepted == old(fifo.accepted)
      ensures !doFlush && isFlushed == old(isFlushed)
      ensures owed <==> old(owed) && Unread() != []
      ensures answers == old(answers) + if old(owed) && !owed then 1 else 0
      ensures requests == old(requests) && cancels == old(cancels)
      ensures Ahead() <==> old(Ahead()) || (old(doFlush) && Unread() != [])
      ensures jumps == old(jumps) + (if Ahead() && !old(Ahead()) then 1 else 0) && unchanged(`early, `undone)
    {
      hide Values, DeliveredOf, Extends, CountOf, Window;
      if doFlush {
        if !fifo.isFlushing && !fifo.Empty() {
          jumps := jumps + 1;
        }
        doFlush := false;
        ghost var acks0 := fifo.acks;
        FlushFifo();
        NoteAcknowledgement(acks0);
      }
    }

    /** The mixer reads the oldest samples. A flush that went ahead to wait for the last of them is
        answered, although the mixer has only just read them. */
    method ReadSamples(count: nat) returns (samples: seq<Sample>)
      requires Valid() && 0 < count <= |Unread()|
      modifies Repr()
      ensures Valid()
      ensures |samples| == count
      ensures samples == old(Unread())[..count]
      ensures Unread() == old(Unread())[count..]
      ensures Read() == old(Read()) + samples
      ensures fifo.accepted == old(fifo.accepted)
      ensures isFlushed == old(isFlushed) && doFlush == old(doFlush)
      ensures owed <==> old(owed) && !(old(Ahead()) && Unread() == [])
      ensures answers == old(answers) + if old(owed) && !owed then 1 else 0
      ensures requests == old(requests) && cancels == old(cancels)
      ensures Ahead() <==> old(Ahead()) && Unread() != []
      ensures early == old(early) + (if old(owed) && !owed then 1 else 0) && unchanged(`jumps, `undone)
    {
      hide Values, DeliveredOf, Extends, CountOf, Window;
      ghost var acks0 := fifo.acks;
      samples := ReadFifo(count);
      if fifo.acks > acks0 {
        early := early + 1;
      }
      NoteAcknowledgement(acks0);
    }
  }

  /** Every flush with unread samples before it that meets an acknowledgement from the sink of the mixer
      is answered as soon as the mixer has read those samples, and not when the sink has them. */
  method EarlyAnswer(s: MixerSrc) returns (samples: seq<Sample>)
    requires s.Valid() && s.doFlush && s.Unread() != []
    modifies s.Repr()
    ensures s.Valid() && samples == old(s.Unread()) && s.Unread() == []
    ensures !s.owed && s.answers == old(s.answers) + 1 && s.early == old(s.early) + 1
    ensures s.requests == old(s.requests)
  {
    hide MixerSrc.Parking, MixerSrc.LedgerOK, MixerSrc.JumpsOK, MixerSrc.Unread;
    s.FlushedIsOwed();
    s.MixerFlushedAllSamples();
    var n := s.SamplesInFifo();
    samples := s.ReadSamples(n);
    assert samples == old(s.Unread());
  }

  /** A source gets there with one sample and a flush, while the mixer still awaits the answer to an
      earlier one. */
  method EarlyExample(x: Sample) returns (s: MixerSrc)
    ensures s.Valid() && s.requests == s.answers == s.early == 1 && !s.owed
  {
    hide MixerSrc.Parking, MixerSrc.LedgerOK, MixerSrc.JumpsOK, MixerSrc.Unread;
    s := new MixerSrc();
    var n := s.WriteSamples([x]);
    var wake := s.FlushSamples();
    var samples := EarlyAnswer(s);
  }
}
