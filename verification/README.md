# A verified model of the SvxLink audio pipe, filter algebra and log queue

SvxLink moves audio through chains of small components. A component is a sink to the one before it
and a source to the one after it. It is told `writeSamples` and answers how many samples it took,
it is told `flushSamples` and must see to it that `allSamplesFlushed` comes back, and a component
whose samples were refused waits for `resumeOutput`. Every component of `src/async/audio` is a state
machine over a buffer and a few flags, and what it promises, it promises for every way in which the
next component may accept some of what it is offered. This project models the components with the
most state, and proves what they keep over every run:

* `Fifo`, `JitterFifo`, `DelayLine` (with `Fading`): ring buffers and what becomes of each sample.
* `Splitter`, `Selector`: one source with many sinks, many sources with one sink.
* `Mixer` (with `MixerSource`, `MixTrack`): the sum of several streams, each behind a FIFO whose sink
  is an `AudioReader`.
* `Processor` (with `Resamplers`, `Fir`): decimation and interpolation in blocks, against one-line
  definitions over the whole stream.
* `Device`: how much of several streams is played at once, and how they are mixed with clipping.
* `Fidlib` (with `Complex`, `Polynomial`), `FidList` and `FidSearch`: the filter algebra of fidlib, its
  filter lists and its two numeric searches.
* `Logger`: the queue of `src/misc/Log.cpp` with any number of producers, one worker and a shutdown.

`AudioPipe` holds the sink, and `Ring`, `Fates`, `Tally` and `Numbers` hold what several components share.

## How the model reads

* A component is a class with the fields of the original. Ghost fields record its history: what it
  accepted, what its sink received, how many flushes were asked for, acknowledged and given up.
  `Valid()` ties the fields to the history, every operation keeps it, and the `Run` method at the end
  of a module drives a component through an arbitrary list of events.
* A sink is an oracle: a write takes any prefix, nothing included. In its other mode it is an
  `AudioReader`, which takes what its reader has room for. It counts the writes it takes nothing of, so
  that a component can be held to being stopped by its sink only. A sink may acknowledge a flush at
  once or later; where it may do so at once, the model chooses freely.
* Callbacks to the source are counted. They do not re-enter the component.
* A method of a splitter or selector branch that calls back into its owner is a method of the owner.
* `float` is `real`. Unsigned arithmetic is written out where it wraps (the jitter FIFO's timeout).
* `pow`, `cos` and `sin`, and the filter designs, are parameters: the fade curve is a function that
  starts at 1, a response is taken at any complex point, a design is any function of its frequency.
* The threads of the logger interleave in atomic steps; sleeping, waking and spurious wake-ups of the
  condition variable are steps too.

Some properties one might expect do not hold of the code. The model keeps the code as it is, and
says for all inputs exactly when they hold:

* A flush gets through once the sink cooperates: `JitterFifo.StrandedFlush` (not while prebuffering
  with samples in the ring), `Processor.StalledFlush` (not when output was left that the sink has not
  refused), `Mixer.AudioMixer.SourceFlush` with `Mixer.StaysUnheard` (not the second flush of a
  source in a row, to a mixer that is done), `JitterFifo.ClearAbandons` (not after a clear).
  `JitterFifo.StrandedSample`, `Processor.StalledExample`, `Mixer.SecondFlush` and
  `JitterFifo.ClearedFlush` are runs that get there.
* An acknowledgement comes only to a source that waits for it, and when its samples are out:
  `Processor.Run` with `Processor.StrayAcknowledgement` and `SecondAcknowledgement` (not when a write or
  another flush crosses one on its way), `MixerSource.EarlyAnswer` (not when the sink of the mixer
  acknowledges while a flushed source has unread samples), `Splitter.AudioSplitter.AddSink` with
  `Splitter.EarlyRound` (not when a branch joins while a flush waits for the buffer).
  `Processor.StrayExample`, `MixerSource.EarlyExample` and `Splitter.EarlyAcknowledgement` are the runs.
* A stopped source is resumed when there is room: not after a clear, `Fifo.ClearStrands`, with
  `Fifo.StrandedByClear` as the run.
* A FIFO refuses samples only while its ring is full or its sink refuses them: not while it prebuffers
  with buffering off, `Fifo.DeafWithoutBuffer`, with `Fifo.DeafExample` as the run.
* A full ring can be played: `Fifo.FullRingPassesGate`, and where it fails `Fifo.StuckBehindGate`,
  with `Fifo.GateExample` as the run.
* A line of the logger is written: `Logger.WrittenIffWorkerThere`, with `Logger.LateLineIsStranded`
  as the run.
* A muted delay line lets nothing through: `Fading.MuteSilences` says for every state of a mute
  whether it does, and `DelayLine.Outlook` for every operation whether that stays so. Setting the fade
  time during a mute can undo it: `DelayLine.MuteUndone` and `DelayLine.MuteWeakened` are the runs.
* What mute and clear do to the line: `DelayLine.ClearedIsSilent`, `DelayLine.OldestIsScaled`,
  `DelayLine.MuteReachesBack`.
* Limits and losses: `JitterFifo.SilenceIsBounded`, `JitterFifo.AudioJitterFifo.Store`,
  `Fir.DroppedTapsMatter`.

For the delay line this contradicts `AsyncAudioDelayLine.h`, which says that a mute silences what comes
in until it is ended, and that a clear silences what is in the line. With the fade time at 0 a mute lets
everything through. With the fade time set to 0 and back during a mute, everything passes from then on,
although fading is on; and with the fade time raised after the mute has faded out, everything passes with
a reduced gain. With the fade time at 0 a clear leaves the samples as they are: a flush right after it
throws them away as promised, but a write makes them audible. With fading on, both can also scale the
oldest sample of the line, which lies before the asked time.

## Model

| member | source | states |
|---|---|---|
| AudioPipe.Sink.WriteSamples | src/async/audio/AsyncAudioReader.cpp:151-165 | A write takes some prefix of the samples, and one that takes none is a refusal; a reader takes exactly what its buffer has room for and notes a refusal. |
| Ring.DistanceIsCount | src/async/audio/AsyncAudioFifo.cpp:150-165 | The source's modular distance between tail and head is the number of buffered samples. |
| Ring.PushAppends | src/async/audio/AsyncAudioFifo.cpp:259-260 | Storing at the head appends to the content, wrapped or not. |
| Ring.AdvanceDrops | src/async/audio/AsyncAudioFifo.cpp:389 | Advancing the tail drops the oldest samples and nothing else. |
| Ring.TakeOut | src/async/audio/AsyncAudioFifo.cpp:389-390 | Taking samples out lowers the count by as many and leaves the rest of the content, wrapped or not. |
| Ring.OldestRun | src/async/audio/AsyncAudioFifo.cpp:374-388 | What one write to the sink is given is a nonempty front of the content, up to the end of the buffer. |
| Fates.NothingLost | src/async/audio/AsyncAudioFifo.cpp:365-408 | A log without discards delivered everything that left the ring, in order. |
| Fifo.AudioFifo.SamplesInFifo | src/async/audio/AsyncAudioFifo.cpp:150-165 | The number of buffered samples; 0 exactly when there are none, or fewer than the prebuffer asks for while it waits for them and no flush is in progress. |
| Fifo.AudioFifo.Store | src/async/audio/AsyncAudioFifo.cpp:257-272 | One more sample is appended; in overwrite mode a ring that runs full discards its oldest sample. |
| Fifo.AudioFifo.Drain | src/async/audio/AsyncAudioFifo.cpp:372-390 | The output loop ends, and delivers the oldest samples until the ring is empty or the sink refuses. |
| Fifo.AudioFifo.WriteSamplesFromFifo | src/async/audio/AsyncAudioFifo.cpp:365-408 | Everything that leaves the ring is delivered in order; the output is stopped exactly when the sink refuses; the step that first makes room resumes a stopped source, once; a downstream flush is issued exactly when the ring has run empty. |
| Fifo.AudioFifo.WriteSamples | src/async/audio/AsyncAudioFifo.cpp:225-291 | A prefix is accepted, none if and only if the ring is full (with buffering on), and then the source is stopped; it terminates with the ring full or everything taken. Prebuffering ends exactly with the write that brings the ring to the prebuffer, and until then the sink gets nothing. Only a refusal of the sink stops the output, except with buffering off, where a prebuffering FIFO refuses without asking it. |
| Fifo.AudioFifo.FlushSamples | src/async/audio/AsyncAudioFifo.cpp:294-307 | A flush goes downstream now or waits for a sink that is holding the ring back; it is acknowledged unless it waits. |
| Fifo.AudioFifo.SinkFlushSamples | src/async/audio/AsyncAudioFifo.cpp:300-306 | Only an empty ring is flushed downstream, at the position of the last accepted sample. |
| Fifo.AudioFifo.AllSamplesFlushed | src/async/audio/AsyncAudioFifo.cpp:335-351 | One acknowledgement per flush, and only for an empty ring; pending disabling of buffering takes effect. |
| Fifo.AudioFifo.ResumeOutput | src/async/audio/AsyncAudioFifo.cpp:310-324 | A resumed output leaves samples only where the sink stops it again; a reader gets exactly the front of the ring. |
| Fifo.AudioFifo.Clear | src/async/audio/AsyncAudioFifo.cpp:168-181 | Everything buffered is discarded, and a flush that waited for it is passed on; a source stopped by the full ring is not resumed. |
| Fifo.AudioFifo.SetSize | src/async/audio/AsyncAudioFifo.cpp:137-147 | As clear, the flush included, in a ring of the new size. |
| Fifo.AudioFifo.SetPrebufSamples | src/async/audio/AsyncAudioFifo.cpp:184-191 | The prebuffer is limited to one less than the ring. |
| Fifo.AudioFifo.EnableBuffering | src/async/audio/AsyncAudioFifo.cpp:194-222 | Buffering ends at once only for an empty ring, otherwise with the next flush; enabling it resumes a stopped source. |
| Fifo.FullRingPassesGate | src/async/audio/AsyncAudioFifo.cpp:150-165 | A full ring is held back by the prebuffer if and only if the prebuffer is larger than the ring, which setPrebufSamples excludes and a later setSize does not. |
| Fifo.LosslessConserves | src/async/audio/AsyncAudioFifo.cpp:225-408 | Without overwriting or clearing, accepted equals received followed by the content of the ring. |
| Fifo.Run | src/async/audio/AsyncAudioFifo.cpp:120-408 | Over every run of writes, flushes, resumes and prebuffer changes: conservation, one resume per stop, a stopped source means a full ring and a sink that has refused samples and not resumed the output since, flushes only at an empty ring. |
| Fifo.RunAll | src/async/audio/AsyncAudioFifo.cpp:120-408 | Over every run of all operations: each accepted sample is delivered, discarded or buffered, in order, and each flush is acknowledged once, given up by a write, or open. |
| Fifo.ClearStrands | src/async/audio/AsyncAudioFifo.cpp:168-181 | After a clear a source is stopped, whatever the sink does, if and only if it was stopped before. |
| Fifo.StrandedByClear | src/async/audio/AsyncAudioFifo.cpp:168-291 | A run that strands a stopped source at an empty ring. |
| Fifo.StuckBehindGate | src/async/audio/AsyncAudioFifo.cpp:150-165 | A full ring behind too large a prebuffer keeps every sample and refuses every write, whatever the sink does. |
| Fifo.GateExample | src/async/audio/AsyncAudioFifo.cpp:137-191 | A run that closes that gate: a prebuffer, a smaller ring, and enough samples to fill it. |
| Fifo.DeafWithoutBuffer | src/async/audio/AsyncAudioFifo.cpp:225-332 | A FIFO that prebuffers with buffering off refuses every write and never asks the sink, whatever the source and the sink do. |
| Fifo.DeafExample | src/async/audio/AsyncAudioFifo.cpp:184-291 | A run that gets there: a prebuffer, buffering switched off, one write. |
| MixerSource.MixerSrc.Conserves | src/async/audio/AsyncAudioMixer.cpp:85-154 | What was accepted is what was read followed by what is unread. |
| MixerSource.MixerSrc.WriteSamples | src/async/audio/AsyncAudioMixer.cpp:97-104 | Samples stay in the FIFO until they are read; none are refused while there is room; a flush still owed an answer is given up. |
| MixerSource.MixerSrc.FlushSamples | src/async/audio/AsyncAudioMixer.cpp:106-120 | A flush leaves the samples alone, wakes the mixer exactly when none are left, and is answered at once if and only if it is the first flush of an idle source. |
| MixerSource.MixerSrc.MixerFlushedAllSamples | src/async/audio/AsyncAudioMixer.cpp:127-136 | A flush that waited for the mixer is answered, or goes ahead to the FIFO, exactly when unread samples come before it. |
| MixerSource.MixerSrc.ReadSamples | src/async/audio/AsyncAudioReader.cpp:129-148 | A reader that asks for no more than is buffered gets exactly that many, the oldest, in order: the assert of the mixer on the count cannot fail. A flush is answered by this, early, exactly when it has gone ahead and these are the last samples. |
| MixerSource.EarlyAnswer | src/async/audio/AsyncAudioMixer.cpp:127-144 | Every flush with unread samples that meets the answer to an earlier downstream flush is answered when its samples have been read, not delivered. |
| MixerSource.EarlyExample | src/async/audio/AsyncAudioMixer.cpp:97-144 | A source gets there with one sample and a flush. |
| MixTrack.MixAppends | src/async/audio/AsyncAudioMixer.cpp:354-373 | Appending a mixed block to a mixed stream gives the mix of the appended tracks. |
| MixTrack.MixOneMore | src/async/audio/AsyncAudioMixer.cpp:359-368 | Adding one more track onto a mixed block gives the mix with that track. |
| MixTrack.SilentTrackIsNeutral | src/async/audio/AsyncAudioMixer.cpp:208-215 | A source that joins late has contributed silence so far. |
| MixTrack.LoneTrack | src/async/audio/AsyncAudioMixer.cpp:354-373 | The mix of one track is its samples, and silence where it plays none. |
| MixTrack.MixesAdd | src/async/audio/AsyncAudioMixer.cpp:354-373 | The mix of two groups of tracks is the pointwise sum of their mixes. |
| Mixer.AudioMixer.AddSource | src/async/audio/AsyncAudioMixer.cpp:208-215 | A new source changes neither the mix nor whether there is anything to do. |
| Mixer.AudioMixer.WriteOutbuf | src/async/audio/AsyncAudioMixer.cpp:315-323 | The write loop ends with the output buffer empty or the sink refusing. |
| Mixer.AudioMixer.SamplesToRead | src/async/audio/AsyncAudioMixer.cpp:328-343 | The block size is what the active source with the least has, and 0 exactly when no source is active or an active one has nothing. |
| Mixer.AudioMixer.ReadSource | src/async/audio/AsyncAudioMixer.cpp:359-368 | An active source gives its next samples, each added to the buffer once; an inactive one gives nothing. |
| Mixer.AudioMixer.ReadBlock | src/async/audio/AsyncAudioMixer.cpp:355-369 | The buffer is the pointwise sum of the next block of every active source. |
| Mixer.AudioMixer.FillOutbuf | src/async/audio/AsyncAudioMixer.cpp:355-372 | The mixed stream grows by the block and stays the sum of its tracks; the backlog shrinks. |
| Mixer.AudioMixer.EverySourceDone | src/async/audio/AsyncAudioMixer.cpp:388-395 | The loop of checkFlush, with nothing to read, decides exactly whether every source has flushed and every FIFO is empty. |
| Mixer.AudioMixer.SinkFlushSamples | src/async/audio/AsyncAudioMixer.cpp:397-399 | Flushing downstream requires that every source has flushed, every FIFO is empty and the output buffer is delivered. |
| Mixer.AudioMixer.CheckFlush | src/async/audio/AsyncAudioMixer.cpp:381-401 | A flush goes out once, exactly when everything is drained and none has gone out yet. |
| Mixer.AudioMixer.AllSamplesFlushed | src/async/audio/AsyncAudioMixer.cpp:233-241 | No source is left flushing, none loses a sample, exactly the flushes with no samples left before them are answered, and all others go ahead. |
| Mixer.AudioMixer.SourceWrite | src/async/audio/AsyncAudioMixer.cpp:97-104 | A write to one source wakes the mixer, touches no other source, and gives up that source's open flush. |
| Mixer.AudioMixer.SourceFlush | src/async/audio/AsyncAudioMixer.cpp:106-120 | A flush is answered at once or owed an answer; the mixer stays awake while there is something to do; and the answer will not come if and only if the source had flushed already and the mixer was flushed, drained and answered. |
| Mixer.AudioMixer.OutputHandler | src/async/audio/AsyncAudioMixer.cpp:302-378 | It terminates, refused by the sink, or with every source flushed and read empty, or one that has not flushed and has nothing; if all is drained, the flush has been sent. |
| Mixer.AudioMixer.ResumeOutput | src/async/audio/AsyncAudioMixer.cpp:218-223 | As the output handler, after the sink has made room. |
| Mixer.MixIsFaithful | src/async/audio/AsyncAudioMixer.cpp:302-378 | Received and buffered output together are the sum over all sources, and each source's samples are used once, in order. |
| Mixer.FlushIsAttended | src/async/audio/AsyncAudioMixer.cpp:302-401 | A flush that is owed an answer waits for the sink, for the mixer to go on, or for an active source without samples. |
| Mixer.Run | src/async/audio/AsyncAudioMixer.cpp:85-401 | For any number of sources and every run: the pointwise sum; the mixer never sleeps with something left to play or to flush downstream; each flush of a source is answered once, given up or owed, and if none came unheard, somebody still has to act for an owed one; each flush that goes ahead is answered early, given up or still ahead, and no other is answered early. |
| Mixer.StaysUnheard | src/async/audio/AsyncAudioMixer.cpp:106-120 | A flush that came unheard is not answered by the timer or by any number of further flushes. |
| Mixer.SecondFlush | src/async/audio/AsyncAudioMixer.cpp:106-120 | A run that gets there: two flushes of a source that has never written. |
| Splitter.Branch.SinkWriteSamples | src/async/audio/AsyncAudioSplitter.cpp:131-151 | A disabled branch swallows everything, a stopped one takes nothing, and an enabled one consumes exactly what its sink took, and is stopped exactly by a refusal. |
| Splitter.AudioSplitter.constructor | src/async/audio/AsyncAudioSplitter.cpp:229-236 | A splitter starts with its main branch and nothing pending. |
| Splitter.AudioSplitter.AddSink | src/async/audio/AsyncAudioSplitter.cpp:250-259 | A branch gets the stream from the buffered block on. It joins a flush correctly if and only if a flush that is asked for has begun and one that has begun is still asked for; otherwise it is counted too early or not at all. |
| Splitter.AudioSplitter.FeedAll | src/async/audio/AsyncAudioSplitter.cpp:452-467 | One round offers each branch its own rest, and a branch is stopped only by its sink; the two result flags say exactly whether anything and whether everything was taken. |
| Splitter.AudioSplitter.WriteFromBuffer | src/async/audio/AsyncAudioSplitter.cpp:442-478 | It terminates on the sum of the rests, with the buffer empty or every branch that has a rest stopped; a waiting flush starts when the buffer runs empty. |
| Splitter.AudioSplitter.WriteSamples | src/async/audio/AsyncAudioSplitter.cpp:324-367 | A block is taken whole when the buffer is empty and refused otherwise; a pending flush is given up. |
| Splitter.AudioSplitter.FlushBranch | src/async/audio/AsyncAudioSplitter.cpp:153-165 | An enabled branch flushes, a disabled one is counted at once. |
| Splitter.AudioSplitter.FlushAllBranches | src/async/audio/AsyncAudioSplitter.cpp:481-488 | Finished and flushing branches together are all branches, and the flush is acknowledged exactly when none is flushing; one branch counted in advance makes it come one branch early. |
| Splitter.AudioSplitter.FlushSamples | src/async/audio/AsyncAudioSplitter.cpp:370-393 | A flush waits for the buffer or starts at once; a second request is ignored. |
| Splitter.AudioSplitter.BranchResumeOutput | src/async/audio/AsyncAudioSplitter.cpp:491-499 | The source is resumed exactly once, when the buffer has run empty. |
| Splitter.AudioSplitter.ResumeBranch | src/async/audio/AsyncAudioSplitter.cpp:174-181 | A branch whose sink has room again gets its rest. |
| Splitter.AudioSplitter.CountBranchFlushed | src/async/audio/AsyncAudioSplitter.cpp:502-512 | The acknowledgement goes out with the last flushing branch and not before. |
| Splitter.AudioSplitter.AllSamplesFlushed | src/async/audio/AsyncAudioSplitter.cpp:183-192 | Only an awaited acknowledgement counts. |
| Splitter.AudioSplitter.SetEnabled | src/async/audio/AsyncAudioSplitter.cpp:104-129 | Disabling gives a stopped buffer free and counts a flushing branch as done, which acknowledges the flush exactly when it was the last; otherwise it changes no count. Enabling changes nothing else. |
| Splitter.EnabledBranchGetsTheStream | src/async/audio/AsyncAudioSplitter.cpp:131-151 | In every reachable state a branch never disabled has received, with its rest, exactly the input since it joined. |
| Splitter.SomebodyOwesACallback | src/async/audio/AsyncAudioSplitter.cpp:442-512 | Buffered samples, a stopped source and an open flush are each held up by an enabled branch whose sink owes a callback. |
| Splitter.Run | src/async/audio/AsyncAudioSplitter.cpp:84-512 | The above over every run, with branches that are enabled and disabled at will and added wherever that keeps the flush count right. |
| Splitter.EarlyRound | src/async/audio/AsyncAudioSplitter.cpp:442-512 | Once a branch has been counted too early, the acknowledgement goes out as soon as no more than one branch is flushing. |
| Splitter.EarlyAcknowledgement | src/async/audio/AsyncAudioSplitter.cpp:250-512 | A run that gets there when the first block is not taken whole. |
| Tally.SumDrops | src/async/audio/AsyncAudioSplitter.cpp:442-478 | The measure on which writeFromBuffer terminates. |
| Selector.Branch.BeginWriting | src/async/audio/AsyncAudioSelector.cpp:114-117 | A write gives up an open flush of its branch and ends a stop. |
| Selector.Branch.BeginFlushing | src/async/audio/AsyncAudioSelector.cpp:139-164 | A flush is answered at once or becomes open. |
| Selector.Branch.ResumeOutput | src/async/audio/AsyncAudioSelector.cpp:166-173 | A stopped branch, and no other, resumes its source. |
| Selector.Branch.Unselect | src/async/audio/AsyncAudioSelector.cpp:188-206 | A branch that loses the selection is resumed or its flush acknowledged, whichever it waits for; an active one goes on writing and stays a candidate. |
| Selector.AudioSelector.SelectBranch | src/async/audio/AsyncAudioSelector.cpp:444-478 | The assert on the new branch cannot fail; the old one is let go and stays a candidate if it was one; the sink is flushed exactly when samples were flowing and none follow at once. |
| Selector.AudioSelector.FindBest | src/async/audio/AsyncAudioSelector.cpp:481-498 | The loop finds the first automatic branch of highest priority that is writing or stopped, or none exactly when there is none. |
| Selector.AudioSelector.SelectHighestPrioActiveBranch | src/async/audio/AsyncAudioSelector.cpp:481-503 | The best candidate is selected, and is still the best then; without one the selection stays or is cleared as asked. |
| Selector.AudioSelector.WriteSamples | src/async/audio/AsyncAudioSelector.cpp:114-137 | Who is selected afterwards, what reaches the sink, that only a refusal of the sink stops a branch, and that an unselected branch is swallowed whole. |
| Selector.AudioSelector.BranchFlushSamples | src/async/audio/AsyncAudioSelector.cpp:414-441 | A branch that does not wait makes way for the best candidate; otherwise the sink is flushed exactly when samples were flowing. |
| Selector.AudioSelector.FlushSamples | src/async/audio/AsyncAudioSelector.cpp:139-164 | A flush is acknowledged now unless the selected branch has to wait for the sink; the selection goes to the best candidate there is then; a flush that is open already is not asked for twice. |
| Selector.AudioSelector.AllSamplesFlushed | src/async/audio/AsyncAudioSelector.cpp:382-392 | The sink's acknowledgement reaches the selected branch if it is waiting, and an automatic branch gives up the selection. |
| Selector.AudioSelector.ResumeOutput | src/async/audio/AsyncAudioSelector.cpp:365-373 | The assert on the selected branch cannot fail, and a stopped branch is resumed once. |
| Selector.AudioSelector.RemoveSource | src/async/audio/AsyncAudioSelector.cpp:276-288 | A removed source is not left waiting, the best remaining candidate takes over, and no other branch changes. |
| Selector.AudioSelector.DisableAutoSelect | src/async/audio/AsyncAudioSelector.cpp:100-107 | A branch that leaves the automatic selection loses the selection to the best remaining candidate, and is resumed or its flush acknowledged, whichever it waits for. |
| Selector.TurnComesBack | src/async/audio/AsyncAudioSelector.cpp:188-498 | A stopped automatic branch that loses the selection to a higher priority is resumed and keeps its turn: when that one flushes, the selection goes to a branch of at least its priority. |
| Selector.NobodyWaitsUnheard | src/async/audio/AsyncAudioSelector.cpp:365-441 | A stopped or flushing branch is the selected one, and the selector is in the same state, so that the sink's callback will reach it. |
| Selector.Run | src/async/audio/AsyncAudioSelector.cpp:82-503 | Over every run of all operations: no assert fails, every stop and flush is answered once, given up by its source, or still owed by the sink. |
| Fir.DecimateBlock | src/async/audio/AsyncAudioDecimator.cpp:145-163 | One more block of M samples gives one more output, the FIR sum at its end. |
| Fir.PartialBlockIsSilent | src/async/audio/AsyncAudioProcessor.cpp:186-191 | An incomplete block gives no output. |
| Fir.InterpolateSample | src/async/audio/AsyncAudioInterpolator.cpp:147-172 | One more sample gives L more outputs of the filter over the zero-stuffed stream, with gain L. |
| Fir.PastOfStuffed | src/async/audio/AsyncAudioInterpolator.cpp:139-174 | Between two samples the zero-stuffed stream is zero, in all positions, past and future. |
| Fir.PolyphaseIsDirect | src/async/audio/AsyncAudioInterpolator.cpp:154-168 | The sum over every L-th tap is the full FIR sum over the zero-stuffed stream. |
| Fir.DroppedTapsMatter | src/async/audio/AsyncAudioInterpolator.cpp:118-121 | Leaving out the last taps is harmless for every input if and only if they are all zero. |
| Fir.DecimationAdds | src/async/audio/AsyncAudioDecimator.cpp:145-163 | Decimation is additive in the stream. |
| Fir.DecimatedPulse | src/async/audio/AsyncAudioDecimator.cpp:145-163 | A pulse at position k gives, in every output, the tap as many places back from the end of its block, and 0 beyond the filter. |
| Fir.InterpolationAdds | src/async/audio/AsyncAudioInterpolator.cpp:139-174 | Interpolation is additive in the stream. |
| Fir.InterpolatedPulse | src/async/audio/AsyncAudioInterpolator.cpp:139-174 | A pulse at position k gives the taps themselves from output k * L on, times L, and 0 elsewhere; L outputs for every sample. |
| Resamplers.AudioDecimator.ProcessSamples | src/async/audio/AsyncAudioDecimator.cpp:133-168 | The output appended over all calls is the decimated stream of all input, and the delay line holds its newest samples. |
| Resamplers.AudioDecimator.FirSum | src/async/audio/AsyncAudioDecimator.cpp:155-160 | The sum over the delay line is the FIR sum at the end of the stream. |
| Resamplers.PushBlock | src/async/audio/AsyncAudioDecimator.cpp:145-152 | The delay line is shifted by the block, which goes to its front reversed. |
| Resamplers.AudioInterpolator.PhaseOutput | src/async/audio/AsyncAudioInterpolator.cpp:156-166 | One phase of the polyphase filter. |
| Resamplers.AudioInterpolator.ProcessSamples | src/async/audio/AsyncAudioInterpolator.cpp:139-174 | The output appended over all calls is the interpolated stream of all input, gain included, by the taps in use. |
| Resamplers.TapsInUse | src/async/audio/AsyncAudioInterpolator.cpp:118-119 | All taps are in use if and only if L divides their number. |
| Processor.AudioProcessor.Decimating | src/async/audio/AsyncAudioProcessor.cpp:246-263 | A processor for a decimator, with an input buffer of one block. |
| Processor.AudioProcessor.Interpolating | src/async/audio/AsyncAudioProcessor.cpp:246-263 | A processor for an interpolator, without an input buffer. |
| Processor.AudioProcessor.FitsUnder | src/async/audio/AsyncAudioProcessor.cpp:144-177 | Whole blocks below the computed maximum fit the output buffer. |
| Processor.AudioProcessor.MaxForIsMost | src/async/audio/AsyncAudioProcessor.cpp:143-151 | The computed maximum is the most: the output of so many inputs fits, that of one more does not, and it is 0 exactly without room for one. |
| Processor.AudioProcessor.Process | src/async/audio/AsyncAudioProcessor.cpp:161-184 | Output is appended behind what is buffered, and is what the stream owes. |
| Processor.AudioProcessor.WriteSamples | src/async/audio/AsyncAudioProcessor.cpp:133-201 | A prefix is taken, none exactly when there is no room, and only a part when all the room has been used; output is left unattended if and only if the write completes just one block with nothing buffered before; and which flushes on their way it crosses. |
| Processor.AudioProcessor.WriteFromBuf | src/async/audio/AsyncAudioProcessor.cpp:311-360 | It terminates, with everything out or stopped by a refusal of the sink; a pending flush is padded to a block and passed on only when everything is out; a stopped source is resumed once. |
| Processor.AudioProcessor.FlushSamples | src/async/audio/AsyncAudioProcessor.cpp:204-227 | When a flush is passed on, the sink has the whole resampled stream, silence-padded to a block; when it waits, the sink holds it, if and only if all output was attended before. |
| Processor.AudioProcessor.ResumeOutput | src/async/audio/AsyncAudioProcessor.cpp:230-235 | A resume sends the buffer on and lets a waiting flush through. |
| Processor.AudioProcessor.AllSamplesFlushed | src/async/audio/AsyncAudioProcessor.cpp:238-243 | Every acknowledgement is passed on; it is wrong exactly when the source does not wait for one or has samples here. |
| Processor.AudioProcessor.OutputIsResampled | src/async/audio/AsyncAudioProcessor.cpp:133-360 | However input and output are cut up, received and buffered output together are the resampled stream, and the input buffer holds exactly the remainder. |
| Processor.ChunkingDoesNotMatter | src/async/audio/AsyncAudioProcessor.cpp:133-201 | Two processors with the same filter and the same stream differ only in how much is already sent. |
| Processor.Run | src/async/audio/AsyncAudioProcessor.cpp:133-360 | The same over every run; and while nothing comes out of turn, every acknowledgement reaches a source that waits for it, with all its samples out. |
| Processor.StrayAcknowledgement | src/async/audio/AsyncAudioProcessor.cpp:133-243 | Every flush still on its way after a write brings an acknowledgement to a source that has given it up. |
| Processor.SecondAcknowledgement | src/async/audio/AsyncAudioProcessor.cpp:204-243 | Every flush that goes past a queued one brings two. |
| Processor.StrayExample | src/async/audio/AsyncAudioProcessor.cpp:133-243 | A run that gets there, with a sink that takes the padded block. |
| Processor.StalledFlush | src/async/audio/AsyncAudioProcessor.cpp:176-227 | What becomes of every flush with a sink that resumes only what it has stopped: it stalls for good if and only if there was output that the sink had not refused; otherwise all of the stream is out, or the sink holds it. |
| Processor.StallABlock | src/async/audio/AsyncAudioProcessor.cpp:133-227 | Every write that completes a first block, and no second, from an empty output buffer stalls the flush after it. |
| Processor.StalledExample | src/async/audio/AsyncAudioProcessor.cpp:133-227 | A run that gets there. |
| JitterFifo.KeptStep | src/async/audio/AsyncAudioJitterFifo.cpp:195-204 | The closed form for the number of samples kept follows the overflow rule step by step. |
| JitterFifo.SilenceIsBounded | src/async/audio/AsyncAudioJitterFifo.cpp:277-289 | A prebuffering pass is limited to 16 rings of silence if and only if the unsigned timeout does not start at 0; it is then less than one write of 800 samples shorter, and otherwise 800 times 2 to the 32nd. |
| JitterFifo.AudioJitterFifo.SamplesInFifo | src/async/audio/AsyncAudioJitterFifo.cpp:148-162 | The number of buffered samples; 0 exactly when there are none, or fewer than half a ring while prebuffering and not flushing. |
| JitterFifo.AudioJitterFifo.Store | src/async/audio/AsyncAudioJitterFifo.cpp:195-204 | A ring that runs full drops its oldest half, in a log; a ring of one slot drops everything. |
| JitterFifo.AudioJitterFifo.Fill | src/async/audio/AsyncAudioJitterFifo.cpp:194-205 | After a whole write the ring holds exactly the newest samples of old content and input. |
| JitterFifo.AudioJitterFifo.WriteSilence | src/async/audio/AsyncAudioJitterFifo.cpp:277-289 | The silence loop terminates within its limit, and a sink with room for it gets exactly the limit. |
| JitterFifo.AudioJitterFifo.Drain | src/async/audio/AsyncAudioJitterFifo.cpp:290-300 | The output loop delivers the oldest samples until the ring is empty or the sink refuses; no write is empty. |
| JitterFifo.AudioJitterFifo.WriteSamples | src/async/audio/AsyncAudioJitterFifo.cpp:184-215 | What is kept, what is played and how much silence is sent, all of it to a sink with room; prebuffering ends at half a ring; only a refusal of the sink stops the output. |
| JitterFifo.AudioJitterFifo.FlushSamples | src/async/audio/AsyncAudioJitterFifo.cpp:218-225 | An empty ring is flushed downstream at once; any other waits for a sink that has stopped the output, or is stranded, exactly when prebuffering. |
| JitterFifo.AudioJitterFifo.ResumeOutput | src/async/audio/AsyncAudioJitterFifo.cpp:228-235 | Only a stopped output reacts; while prebuffering it sends silence only. |
| JitterFifo.AudioJitterFifo.AllSamplesFlushed | src/async/audio/AsyncAudioJitterFifo.cpp:247-258 | A flush is acknowledged once, and only with an empty ring. |
| JitterFifo.AudioJitterFifo.Clear | src/async/audio/AsyncAudioJitterFifo.cpp:165-181 | Everything is dropped, and a flush in progress is passed on but never acknowledged. |
| JitterFifo.AudioJitterFifo.SetSize | src/async/audio/AsyncAudioJitterFifo.cpp:135-145 | As clear, the abandoned flush included, in a ring of the new size. |
| JitterFifo.Run | src/async/audio/AsyncAudioJitterFifo.cpp:120-319 | Every accepted sample is delivered in order, dropped or buffered, with only silence in between; a stopped output has something to send. |
| JitterFifo.StrandedFlush | src/async/audio/AsyncAudioJitterFifo.cpp:218-289 | What becomes of every flush, whatever the sink does: it never ends and moves no sample if and only if it comes while prebuffering with samples in the ring; otherwise it is passed on with an empty ring or waits for a sink that has stopped the output. |
| JitterFifo.StrandedSample | src/async/audio/AsyncAudioJitterFifo.cpp:218-289 | A run that gets there: one sample in a ring of four or more. |
| JitterFifo.ClearAbandons | src/async/audio/AsyncAudioJitterFifo.cpp:165-181 | After a clear an open flush is never acknowledged, whatever the sink does, although it is passed on if there was anything left. |
| JitterFifo.ClearedFlush | src/async/audio/AsyncAudioJitterFifo.cpp:165-225 | A run that gets there: one sample, a flush, a clear. |
| Fading.FadesOut | src/async/audio/AsyncAudioDelayLine.h:228-251 | The index walks to the end of the table and stops there. |
| Fading.FadesIn | src/async/audio/AsyncAudioDelayLine.h:228-251 | The index walks back to full gain and stops there. |
| Fading.TransparentPasses | src/async/audio/AsyncAudioDelayLine.h:228-251 | At full gain samples pass unchanged, and the gain stays. |
| Fading.FadeOutProfile | src/async/audio/AsyncAudioDelayLine.h:228-251 | Fading out from any index multiplies the samples by the gains of the table from there on, and then by the last. |
| Fading.FadeInProfile | src/async/audio/AsyncAudioDelayLine.h:228-251 | Fading in multiplies them by the gains from there back to the first. |
| Fading.MuteSilences | src/async/audio/AsyncAudioDelayLine.cpp:167-178 | A mute without an end silences every input within one fade if and only if fading is on and the index is on its way to the end of the table or stands there. |
| Fading.HeadingOutIsSilent | src/async/audio/AsyncAudioDelayLine.h:228-251 | While such a mute lasts, no more samples are heard than the index has steps left. |
| Fading.HeadsOn | src/async/audio/AsyncAudioDelayLine.cpp:242-252 | It goes on like that with every sample, until a mute with time left ends. |
| Fading.HeadingStays | src/async/audio/AsyncAudioDelayLine.cpp:242-252 | Samples neither set a mute on that way nor take it off. |
| Fading.MuteEnds | src/async/audio/AsyncAudioDelayLine.cpp:244-250 | A mute with time left ends after exactly that many samples. |
| Fading.FullGainReturns | src/async/audio/AsyncAudioDelayLine.cpp:244-250 | One fade after a mute has ended the line is at full gain. |
| DelayLine.RescaleStep | src/async/audio/AsyncAudioDelayLine.cpp:171-176 | Which sample each step of the loop of mute and clear reaches. |
| DelayLine.LineProfile | src/async/audio/AsyncAudioDelayLine.cpp:167-223 | By which gain of the table a mute or clear of the newest samples multiplies each sample of the line; all others stay. |
| DelayLine.ClearedIsSilent | src/async/audio/AsyncAudioDelayLine.cpp:195-223 | The samples that a flush leaves out after a clear are silent, for every content, if and only if fading is on. |
| DelayLine.OldestIsScaled | src/async/audio/AsyncAudioDelayLine.cpp:171-176 | Only the newest samples are scaled if and only if the last gain is 1 or all are scaled; otherwise the oldest is too. |
| DelayLine.MuteReachesBack | src/async/audio/AsyncAudioDelayLine.cpp:159-181 | A mute leaves the samples from before the asked time alone if and only if fading is off, the whole line is muted, or at most one sample is. |
| DelayLine.AudioDelayLine.SetFadeTime | src/async/audio/AsyncAudioDelayLine.cpp:135-156 | The new table starts at 1 and ends at 0, and the index stays in it. A mute that silences the input goes on doing so if and only if fading stays on and the fade is still going on or does not become longer. |
| DelayLine.AudioDelayLine.CurrentFadeGain | src/async/audio/AsyncAudioDelayLine.h:228-251 | The gain at the index, which stays in the table. |
| DelayLine.AudioDelayLine.SetMute | src/async/audio/AsyncAudioDelayLine.cpp:159-192 | What a mute does to the line, the index and the time left. |
| DelayLine.AudioDelayLine.Clear | src/async/audio/AsyncAudioDelayLine.cpp:195-223 | What a clear does to the line and the index, and how much the next flush leaves out. |
| DelayLine.AudioDelayLine.StoreFaded | src/async/audio/AsyncAudioDelayLine.cpp:242-252 | New samples, each with its gain, take the places of the oldest. |
| DelayLine.AudioDelayLine.WriteSamples | src/async/audio/AsyncAudioDelayLine.cpp:226-255 | The sink gets the oldest samples for as many new ones, as many as it takes of the offered ones, and these are stored with their gains; an untouched line stores them unchanged. |
| DelayLine.AudioDelayLine.WriteRemainingSamples | src/async/audio/AsyncAudioDelayLine.cpp:307-338 | The loop terminates, and leaves something only where the sink refuses; when it has sent everything the sink is flushed, and an untouched line has then delivered its initial silence and all of its input. |
| DelayLine.AudioDelayLine.FlushSamples | src/async/audio/AsyncAudioDelayLine.cpp:258-270 | A completed flush of an untouched line has delivered zeros and then the whole input; before any write it delivers nothing. |
| DelayLine.AudioDelayLine.ResumeOutput | src/async/audio/AsyncAudioDelayLine.cpp:273-283 | A flush in progress goes on, otherwise the source is resumed. |
| DelayLine.Run | src/async/audio/AsyncAudioDelayLine.cpp:116-338 | Over every run the fade index stays in its table; without mute or clear, received output followed by the line is zeros followed by the input. |
| DelayLine.BeginMute | src/async/audio/AsyncAudioDelayLine.cpp:159-181 | A new mute, however far back, silences the input if and only if fading is on. |
| DelayLine.MutedClear | src/async/audio/AsyncAudioDelayLine.cpp:195-223 | A clear of a muted line keeps it silencing, or makes it so, if and only if fading is on. |
| DelayLine.MutedWrite | src/async/audio/AsyncAudioDelayLine.cpp:226-255 | A write leaves that to the mute while it lasts, and what it stores past the rest of the fade is silence. |
| DelayLine.Outlook | src/async/audio/AsyncAudioDelayLine.cpp:135-338 | For every operation on a muted line, exactly when the line silences its input afterwards. |
| DelayLine.MutedRun | src/async/audio/AsyncAudioDelayLine.h:143-153 | From a mute with fading on, over every run of writes, flushes, resumes and clears, all samples but one fade are stored as silence. |
| DelayLine.FadeTimeUndoesMute | src/async/audio/AsyncAudioDelayLine.cpp:135-156 | Setting the fade time to 0 and back makes every muted line store every input unchanged, for good. |
| DelayLine.LongerFadeWeakensMute | src/async/audio/AsyncAudioDelayLine.cpp:135-156 | A longer fade time makes every line that has faded out store every input with one gain from inside the new table. |
| DelayLine.MuteUndone | src/async/audio/AsyncAudioDelayLine.cpp:135-192 | A run that undoes a mute. |
| DelayLine.MuteWeakened | src/async/audio/AsyncAudioDelayLine.cpp:135-192 | A run that weakens one: a mute 10 ms back, and a fade time of 100 ms. |
| Device.MixOneSample | src/async/audio/AsyncAudioDevice.cpp:360-376 | One more sample, added with clipping at its interleaved position, and no other position changes. |
| Device.MixSampleAdds | src/async/audio/AsyncAudioDevice.cpp:360-376 | A sample is added in units of full scale to what is there, rounded towards 0 by less than 1; beyond full scale the result is the bound on that side. |
| Device.OneMorePart | src/async/audio/AsyncAudioDevice.cpp:337-376 | What one more part adds to the mix, to the exact sum and to the loudness: its sample on its channel, and nothing elsewhere. |
| Device.MixIsSum | src/async/audio/AsyncAudioDevice.cpp:337-376 | Where the parts together cannot reach full scale, the mix is their sum in units of full scale, off by less than 1 for each. |
| Device.BufferIsSum | src/async/audio/AsyncAudioDevice.cpp:337-376 | The same for every position of the interleaved buffer. |
| Device.EveryObjectTakesPart | src/async/audio/AsyncAudioDevice.cpp:337-345 | Every object that is not idle takes part once, in order, on its channel and with the front of what it has. |
| Device.NothingIsSkipped | src/async/audio/AsyncAudioDevice.cpp:344-345 | What is read from an object followed by what is left is what it had. |
| Device.Plan | src/async/audio/AsyncAudioDevice.cpp:305-331 | The number of frames is the most that every object can keep up with, and the flush flag says exactly whether this is the end of everything. |
| Device.GetBlocks | src/async/audio/AsyncAudioDevice.cpp:292-391 | Whole blocks only, and as many as every object that goes on can fill, except at the very end, which takes everything; nothing is played exactly when someone is starving or nobody has anything; the buffer is the clipped mix of the fronts of all objects. |
| Complex.DivUndoesMul | src/async/audio/fidlib.c:377-384 | The complex quotient times the divisor is the dividend. |
| Complex.ImaginaryUnit | src/async/audio/fidlib.c:334-340 | i times i is -1, and 1 is neutral. |
| Complex.NormVanishes | src/async/audio/fidlib.c:377-384 | Only 0 has no inverse. |
| Complex.CommonFactorCancels | src/async/audio/fidlib.c:1800-1802 | A common real factor of numerator and denominator cancels. |
| Polynomial.EvalOfProduct | src/async/audio/fidlib.c:1726-1740 | Evaluating a convolution is multiplying the evaluations, at every complex point. |
| Polynomial.Horner | src/async/audio/fidlib.c:472-497 | The value of a polynomial is its constant term and z times the value of the rest. |
| Polynomial.PartialScales | src/async/audio/fidlib.c:1801-1802 | Scaling the coefficients scales the value. |
| Fidlib.Evaluate | src/async/audio/fidlib.c:472-497 | The accumulating loop computes the polynomial's value. |
| Fidlib.FidResponse | src/async/audio/fidlib.c:568-597 | A value is the numerator divided by the denominator, so that times the denominator it is the numerator; an error exactly for an unknown type, and no value exactly where the denominator is 0. |
| Fidlib.ResponseIsQuotient | src/async/audio/fidlib.c:568-597 | The response times the product of all IIR sections is the product of all FIR sections. |
| Fidlib.ProductOfSection | src/async/audio/fidlib.c:577-590 | A section counts for its own kind with the value of its polynomial, and for the other with 1. |
| Fidlib.DefinedOffTheZeros | src/async/audio/fidlib.c:377-384 | There is a response exactly where the product of the IIR sections is not 0. |
| Fidlib.Convolve | src/async/audio/fidlib.c:1726-1740 | Working downwards in place, the array becomes the convolution of its old content, and nothing beyond it changes. |
| Fidlib.MergedMeansProduct | src/async/audio/fidlib.c:1785-1792 | Convolving all sections of a kind gives the product of their values. |
| Fidlib.MergeSections | src/async/audio/fidlib.c:1781-1797 | The two arrays are filled exactly, so that the sanity check cannot fail. |
| Fidlib.FidFlatten | src/async/audio/fidlib.c:1748-1805 | An error exactly for an unknown type, otherwise one IIR and one FIR section. |
| Fidlib.FlatteningPreservesResponse | src/async/audio/fidlib.c:1748-1805 | The flattened filter is defined at the same points as the original, has the same response there, and starts its IIR part with 1. |
| Fidlib.FlattenedProducts | src/async/audio/fidlib.c:1799-1802 | Both products of the flattened filter are those of the original, scaled by one common factor. |
| FidList.FidCvArray | src/async/audio/fidlib.c:1995-2037 | Two scans: the first finds every malformed section and the exact room, the second fills it with what the array means. |
| FidList.DecodeEncode | src/async/audio/fidlib.c:1995-2037 | Every filter written as an array is converted back to itself, wherever it stands. |
| FidList.BadTypeIsFound | src/async/audio/fidlib.c:1995-2037 | After any well-formed sections, a type that truncates to neither F nor I is an error, whatever follows. |
| FidList.BadLengthIsFound | src/async/audio/fidlib.c:1995-2037 | So is a length below 1 after a good type. |
| FidList.UnclosedOverruns | src/async/audio/fidlib.c:1995-2037 | Sections without the closing 0 lead beyond the end of the array. |
| FidList.FidCat | src/async/audio/fidlib.c:2048-2080 | Two scans: the first measures the room for all filters, the second fills it exactly with their sections, in order. |
| FidList.JoinedInOrder | src/async/audio/fidlib.c:2048-2080 | Joining lists of filters one after the other joins the joined filters, each as it is. |
| FidList.JoinedMultiplies | src/async/audio/fidlib.c:2048-2080 | Numerator and denominator of joined filters are the products of theirs, at every complex point. |
| FidSearch.PeakStaysInside | src/async/audio/fidlib.c:736-739 | The comparison of two inner points keeps the peak in the bracket. |
| FidSearch.SearchPeak | src/async/audio/fidlib.c:721-742 | For every strictly unimodal response the result lies in the range and within half of 0.51 to the 20th of it from the peak, which is less than 0.75 millionths. |
| FidSearch.FindRange | src/async/audio/fidlib.c:1453-1461 | A second point is found exactly when one of the ten trials lies on the other side of the level, and lies there itself. |
| FidSearch.CrossingIsFound | src/async/audio/fidlib.c:1453-1461 | There is a range whenever the level is crossed at f0/a or 0.5 - (0.5 - f0)/a, for a any of 2, 4, 8, 16 and 32. |
| FidSearch.RangeHasCrossing | src/async/audio/fidlib.c:1453-1461 | And where there is a range, one of these lies on the other side. |
| FidSearch.MidpointIsClose | src/async/audio/fidlib.c:1470-1478 | The midpoint of a crossing bracket is as close to the level as the slope and the width allow. |
| FidSearch.AcceptedIsHalfPower | src/async/audio/fidlib.c:1474 | An accepted response is the square root of one half to six figures. |
| FidSearch.NearIsAccepted | src/async/audio/fidlib.c:1474 | Everything within 0.35 millionths of the square root of one half is accepted, and nothing farther off than 0.36. |
| FidSearch.AutoAdjustSingle | src/async/audio/fidlib.c:1439-1485 | The bisection keeps the crossing, rising or falling, terminates for every Lipschitz response, and returns an accepted design; it fails exactly without a range. |
| Logger.StepKeepsConserved | src/misc/Log.cpp:73-90 | Written, local and queued lines together are the pushed lines in lock order, after every atomic step. |
| Logger.StepKeepsWakeup | src/misc/Log.cpp:135-139 | A sleeping worker has nothing to do, or a notification is on its way. |
| Logger.RunKeepsInv | src/misc/Log.cpp:73-140 | All invariants hold after every interleaving. |
| Logger.WrittenExactlyBeforeExit | src/misc/Log.cpp:73-90 | Without a worker, a line is written if and only if it was pushed before the worker's last look at the queue. |
| Logger.WrittenIffWorkerThere | src/misc/Log.cpp:73-140 | A line is written by the time the worker has left, in every run without a new worker, if and only if the worker was there when the line was pushed. |
| Logger.InactiveLineIsDirect | src/misc/Log.cpp:115-133 | A line that finds the logger inactive is never queued: it is written directly, in exactly one step of the run, and has its own place among the lines so written. |
| Logger.ActiveLineIsPushed | src/misc/Log.cpp:124-139 | A line that finds it active is never written directly: it is pushed in exactly one step, and has its own place among the pushed lines. |
| Logger.ShutdownWritesEverything | src/misc/Log.cpp:201-209 | Every line pushed before shutdown sets the stop flag is written, once and in order, when the worker has been joined. |
| Logger.JoinNeverBlocks | src/misc/Log.cpp:201-209 | While shutdown waits for the worker, the worker is not asleep. |
| Logger.ShutdownTakes | src/misc/Log.cpp:73-90 | Once told to stop, with nobody pushing, the worker leaves after an exact number of its own steps, with everything written. |
| Logger.ShutdownTakesAtMost | src/misc/Log.cpp:73-90 | With producers pushing meanwhile, a stopping worker takes no more steps than it had left and three for every line pushed. |
| Logger.LateLineIsStranded | src/misc/Log.cpp:115-140 | A producer that found the logger active and pushes after the worker has left strands its line in the queue. |

## Left out

- Splitter.Run: adds a branch only where that keeps the flush count right; what happens elsewhere is in the contracts of `AddSink` and `FlushAllBranches`.
- Fidlib.FidResponse: gives the complex response at a point of the plane; taking that point from a frequency (`cos`, `sin`) and the magnitude from the result (`hypot`), and the phase of `fid_response_pha`, are not modelled.
- FidList.FidCvArray: an array without its closing 0, which the code reads beyond its end, gives an outcome of its own.
- Fidlib.FidFlatten: requires IIR sections with a nonzero leading coefficient, because the code divides by their product.
- FidSearch.AutoAdjustSingle: works over exact reals; the exit at the limit of `double` cannot be reached there, and the Lipschitz condition takes its place as the reason for termination.
- FidSearch.SearchPeak: likewise, its exit for equal inner points is taken only for a range of width 0.
- JitterFifo.AudioJitterFifo.constructor: requires two slots; a ring of one slot never holds a sample, and its output would write nothing with a length of 0.
- JitterFifo.AudioJitterFifo.SetSize: requires two slots, like the constructor.
- DelayLine.AudioDelayLine.constructor: requires a line of at least one sample, as the code does when it writes; the fade curve is any function that starts at 1.
- Device.GetBlocks: takes what an AudioIO object has ready as a sequence; the resampling and the FIFO behind it are not modelled, nor is the device.
- Re-entrancy: a source that writes again from inside its resume or flush callback, and destructors that run inside callbacks.
- `AudioSplitter::removeSink`, `removeAllSinks` and `cleanupBranches`: they change the set of branches under a flush, and need object lifetimes.
- Deferred work: the resume that `AudioProcessor` hands to the event loop is counted, and when it is carried out is left open; its flush is an event of its own.
- Rounding of `float` and `double`, overflow of `int` and of `size + head - tail` in `unsigned`.
- `AudioPacer`, the WAV container and the small pass-through classes: they would add only easy members, or make no promise that holds.
- Filter design (`des_*`), the parsers of filter specifications, `auto_adjust_dual`, and the log levels and configuration of `Log.cpp`.
- `Log.cpp` tolerates short writes; here every write is complete. `startWorker` and `shutdown` are called by one thread, one after the other.
- Device back ends, codecs, network protocols, MQTT and Redis.
