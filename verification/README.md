# Verified models of the runtime's protocols, printers and layouts

This project models the parts of an Xbox 360 recompilation runtime whose correctness
does not show in any one function: concurrent protocols, queues and positions that
advance chunk by chunk, hand-written printers and encoders, and structures laid out in
guest memory. Each is written in Dafny 4.11 with its branches, constants and edge cases,
and the promises made about it are proved for every input and every run.

`dafny verify dfyconfig.toml` checks the whole project.

| module | subject |
|---|---|
| `DiagnosticEvents`, `DiagnosticRing`, `DiagnosticRuns`, `DiagnosticClears` | the lock-free diagnostic ring: one step for each atomic operation, any number of writers, readers and clears |
| `BlockedWaits` | the single pass that finds waits still open at the end of a log |
| `RenderClients`, `CallbackProtocol` | render clients: the locked sections as a class, and the protocol of slots, callbacks, wrappers and the pump over every interleaving |
| `Mixer` | voices, queues, positions, loops and completions of the mixer |
| `RecorderRing` | the single-producer single-consumer recorder, with stale position loads |
| `Arithmetic`, `Digits`, `HexFloat`, `HexText`, `Formatting`, `FormatProperties`, `FormatDirectives`, `StringFormat` | the guest printf engine: numerals, the hexadecimal float, directives and fields, what they read back as, what each directive appends, and the formatter itself |
| `Unicode`, `ContentData` | UTF-16 names in guest structures, their UTF-8 form, and the UTF-8 validator |
| `CompilationCache`, `CacheRuns`, `CachePromotion` | the content-addressed object cache under races, crashes and damage |
| `GuestMemory`, `ProfileBuffer`, `ProfileWriting` | guest memory, the profile-settings result buffer, and what becomes of it when it is written back |
| `Realtime` | the reconnect controller: guarded sections as a class, and every run of them |
| `ThunkRegistry` | guest module records and export thunks |

Concurrent protocols are state machines: a datatype of states, a step for each atomic
operation or locked section, an invariant kept by every step, and theorems about every
sequence of steps. Where the program changes an object or an array in place, a class or
an array method does the same and is proved against a function whose properties are
proved beside it.

Conventions: atomic operations are sequentially consistent; positions and samples of the
mixer are exact reals; a shift or mask by whole digits is a division or remainder by a
power of the base, except in `Unicode`, which uses bit-vectors and the source's own masks;
hashing is injective because a digest is its contents behind a constructor; allocation,
the host's decimal conversions, the settings store and the export registry are
parameters.

Where the code does not do what its comments or its documentation promise, the model
follows the code, a lemma gives a concrete run or input, and another says exactly when
the promise holds:

- overlapping `clear` calls can bring cleared events back (`OverlappingClearsResurrect`,
  `FallsExactly`, `ClearedStaysExactly`), against the comment at
  src/logging/diagnostic_events.cpp:115-116;
- a callback that unregisters its own client on a pump thread the audio system does not
  own waits for itself (`CallbackHappens`, `SelfUnregister`, `StuckForever`), against
  docs/audio/AUDIO_V1.md:88-90 and the comment at src/audio/system.cpp:168-170;
- shutdown with such a pump thread frees the argument of a running callback
  (`ClearDangles`, `ExternalShutdownDangles`), against src/audio/system.cpp:76-78;
- shutdown releases the wrappers that are in slots (src/audio/system.cpp:93-98), not one a
  registration puts there after it (`LateRegistrationStays`, `ClearLeaves`);
- frame counters of the recorder miscount half frames (`HalfFrameMiscounted`,
  `FramesBalanceExactly`);
- zero padding of a hexadecimal float goes in front of its `0x`, so the field is no
  longer a constant that can be read (`HexZeroPadded`, `HexFieldReadsBack`), unlike the
  documented syntax the header include/xenon/xbox/string_format.hpp:11-13 follows;
- a display name that fills all 128 places loses its last unit (`FullNameLosesOne`,
  `NameRoundTrip`);
- a stage damaged after its check is published unchecked (`StageDamageReturns`,
  `RenamedVerifies`, `ReturnsWithEntry`), and a cache hit copies without checking again
  (`HitCopiesDamage`, `CopyIsUnchecked`);
- a size query whose size slot overlaps the ids may return too little
  (`OverlappingQuery`, `QueryIsEnoughExactly`);
- a setting of Content type is read out without its bytes and stored empty when it is
  written back (`ContentIsLost`, `ReadWriteBack`), although
  include/xenon/xam/profile_settings.hpp:42-44 says content keeps its bytes;
- a refused start mutes a channel another thread has just connected, until that channel
  reports again that it is (`RefusedStartMutes`, `HeardExactly`, `MutedUntilConnected`).

## Model

| member | source | states |
|---|---|---|
| `DiagnosticEvents.DecodeEncode` | src/logging/diagnostic_events.cpp:72-108 | the six words a writer stores decode, field by field, to the event it was given |
| `DiagnosticRing.StepInv` | src/logging/diagnostic_events.cpp:46-124 | the ring invariant is kept by every atomic step of `record`, `snapshot` and `clear`, from any number of callers |
| `DiagnosticRuns.RunInv` | src/logging/diagnostic_events.cpp:46-124 | so it holds in every state of every interleaving |
| `DiagnosticRuns.NoTornReads` | src/logging/diagnostic_events.cpp:82-112 | in every interleaving each event a snapshot has collected is exactly the event recorded with that sequence, sequences strictly increase and lie in the range read |
| `DiagnosticRuns.OneOwner` | src/logging/diagnostic_events.cpp:53-79 | at most one writer owns a slot at any moment |
| `DiagnosticRuns.VersionsGrow` | src/logging/diagnostic_events.cpp:53-79 | no step lowers the version of any slot |
| `DiagnosticRing.RestingSlot` | src/logging/diagnostic_events.cpp:53-79 | with no writer in progress a retained slot holds exactly the last event drawn for it, its final version and its six words |
| `DiagnosticRuns.CompleteAtRest` | src/logging/diagnostic_events.cpp:82-112 | a snapshot taken while no `record` is in progress returns the last min(next - base, 65536) events of the log in order, that is, every event from its base on that at most 65536 draws have followed and no other, whatever clears and other snapshots run beside it |
| `DiagnosticRuns.SnapshotReturns` | src/logging/diagnostic_events.cpp:82-112 | a snapshot never waits: from any state it can be run to its end, which changes nothing else |
| `DiagnosticRuns.OldestNeverWaits` | src/logging/diagnostic_events.cpp:56-69 | the oldest `record` in progress is never made to wait |
| `DiagnosticRuns.OldestOwnStep` | src/logging/diagnostic_events.cpp:56-79 | each of its own effective steps lowers a bounded measure or returns |
| `DiagnosticRuns.OldestOtherStep` | src/logging/diagnostic_events.cpp:56-79 | no step of any other thread raises that measure |
| `DiagnosticRuns.OldestFinishes` | src/logging/diagnostic_events.cpp:56-79 | so it returns within ten of its own steps whatever the others do: the waiting loop always has a writer able to finish |
| `DiagnosticRuns.RecordedNeverWraps` | src/logging/diagnostic_events.cpp:114-119 | the base `recorded` loads is never above the end it loads later, so the difference never wraps |
| `DiagnosticClears.FallsExactly` | src/logging/diagnostic_events.cpp:114-124 | the store of a clear moves the base down exactly when the last store since its own load was that of a clear that loaded after an event had been drawn |
| `DiagnosticClears.ClearedStaysExactly` | src/logging/diagnostic_events.cpp:114-124 | over any run cleared events stay cleared, as the comment in `recorded` assumes, exactly when no clear in it is overtaken in that way |
| `DiagnosticClears.SerialClearsStay` | src/logging/diagnostic_events.cpp:114-124 | in particular while `clear` calls do not overlap |
| `DiagnosticClears.OverlappingClearsResurrect` | src/logging/diagnostic_events.cpp:46-124 | a run of two overlapping clears and one recorded event: a snapshot after the first store returns nothing, one after the second returns the cleared event again |
| `BlockedWaits.FlagMeansLater` | src/logging/diagnostic_events.cpp:163-181 | in a log ordered by sequence the before/after flag says whether the latest signal lies after the wait |
| `BlockedWaits.Scan` | src/logging/diagnostic_events.cpp:126-161 | the one pass ends with exactly the open waits of every thread and the latest signal of every nonzero object |
| `BlockedWaits.Report` | src/logging/diagnostic_events.cpp:163-182 | the result lists every open wait once, by thread and then log order, each described by the whole log, and nothing else |
| `RenderClients.DueIndicesExact` | src/audio/system.cpp:428-443 | the slots one pump pass collects, in order and without repeats, are exactly the due ones |
| `RenderClients.RenderChunks` | src/audio/system.cpp:360-391 | rendering n then m frames plays the same samples and leaves the same record as n + m at once |
| `RenderClients.AudioSystem.Insert` | src/audio/system.cpp:120-134 | the first free slot gets the new registration; with none free nothing changes |
| `RenderClients.AudioSystem.Submit` | src/audio/system.cpp:233-264 | a frame joins the queue or exactly one rejection counter rises, by the first failing test, the client told field by field |
| `RenderClients.AudioSystem.Unregister` | src/audio/system.cpp:144-171 | the slot is freed, or kept retiring while a callback is out; a dead handle changes nothing |
| `RenderClients.AudioSystem.Suspend` | src/audio/system.cpp:266-276 | every allocated client takes the flag, and the result says whether there was one |
| `RenderClients.AudioSystem.Collect` | src/audio/system.cpp:424-443 | each due client loses one credit and gains one callback in flight, all others stay |
| `RenderClients.AudioSystem.AfterCallback` | src/audio/system.cpp:452-465 | a callback comes back; the last one of a retiring client frees the slot and hands out its wrapper |
| `RenderClients.AudioSystem.RenderOne` | src/audio/system.cpp:363-389 | one client adds its next queued samples into the output, left to left and right to right, and moves past exactly those |
| `RenderClients.AudioSystem.Render` | src/audio/system.cpp:353-395 | each output sample is, on each side, the sum of what every active client plays there; every client keeps what it did not play, and the underrun and tick counters follow |
| `RenderClients.OneClientPlays` | src/audio/system.cpp:353-395 | with one active client the output is its own queued samples and silence behind them |
| `RenderClients.PlaysQueued` | src/audio/system.cpp:363-389 | what a client plays are its queued samples from its read offset on, frame after frame |
| `RenderClients.KeepsUnplayed` | src/audio/system.cpp:363-389 | and what it keeps are the samples behind those |
| `CallbackProtocol.StepInv` | src/audio/system.cpp:84-175 | the ownership invariant of slots, wrappers and callbacks is kept by every locked section and every callback step |
| `CallbackProtocol.RunInv` | src/audio/system.cpp:84-468 | so it holds throughout every orderly run |
| `CallbackProtocol.OwnedOrderly` | src/audio/system.cpp:75-103 | every run is orderly when the system owns the pump thread it joins |
| `CallbackProtocol.ArgumentAlive` | src/audio/system.cpp:414-467 | every callback out refers to the registration it was collected for, and its wrapper is allocated and still held by that slot |
| `CallbackProtocol.OneHolder` | src/audio/system.cpp:110-175 | an allocated wrapper has exactly one holder, a released one none |
| `CallbackProtocol.ReleasedOnce` | src/audio/system.cpp:84-175 | a wrapper is released at most once: every release hits an allocated wrapper that nobody holds afterwards |
| `CallbackProtocol.NothingLeaks` | src/audio/system.cpp:84-175 | once no call and no pump pass holds a wrapper, the allocated ones are exactly those in the slots of registered or retiring clients |
| `CallbackProtocol.ClearLeaves` | src/audio/system.cpp:93-101 | the clear of shutdown leaves exactly the wrappers some call is still holding |
| `CallbackProtocol.LateRegistrationStays` | src/audio/system.cpp:84-134 | a registration that passed its check before shutdown and takes its slot after the clear keeps its wrapper allocated |
| `CallbackProtocol.CreditsAndStream` | src/audio/system.cpp:233-464 | issued + credits never exceed the limit + consumed, submitted = consumed + queued, issued = returned + in flight, and what was heard is the prefix of what was submitted that the counters say |
| `CallbackProtocol.ClearDangles` | src/audio/system.cpp:92-101 | shutdown takes the argument from a running callback exactly when a callback is running then |
| `CallbackProtocol.ExternalShutdownDangles` | src/audio/system.cpp:75-103 | with a pump thread the system does not own, shutdown reaches that state from any running callback |
| `CallbackProtocol.CallbackHappens` | src/audio/system.cpp:446-450 | such running callbacks are reached, of a client still registered and whoever owns the pump thread |
| `CallbackProtocol.SelfUnregister` | src/audio/system.cpp:168-174 | a callback that unregisters its own client returns at once on the owned pump thread and is stuck on any other |
| `CallbackProtocol.StuckForever` | src/audio/system.cpp:168-174 | short of a shutdown a stuck callback never returns |
| `Mixer.NormalizePosition` | src/audio/mixer.cpp:168-188 | the loop ends and gives the normalised position, wrapping each finite loop once |
| `Mixer.NormalizeIdempotent` | src/audio/mixer.cpp:168-188 | normalising twice is normalising once |
| `Mixer.IndicesInside` | src/audio/mixer.cpp:221-230 | both interpolation indices of a playing position lie inside the buffer |
| `Mixer.DrainOk` | src/audio/mixer.cpp:204-215 | draining keeps the byte counter equal to the queue it counts, so its clamp to zero never fires |
| `Mixer.MixVoiceOk` | src/audio/mixer.cpp:197-259 | mixing keeps every voice sound |
| `Mixer.PlayThenDrainSplit` | src/audio/mixer.cpp:203-258 | two calls, the first with its own end-of-call drain, play the same as one |
| `Mixer.ChunkInvariance` | src/audio/mixer.cpp:190-260 | n + m output frames in one call give the samples, final voice and completions of n and then m |
| `Mixer.MixChunks` | src/audio/mixer.cpp:190-260 | and so for all voices together: the mixed destination, every voice and each voice's completions |
| `Mixer.PlayAlone` | src/audio/mixer.cpp:203-258 | a finite buffer alone yields the ceiling of its unrolled length over the step |
| `Mixer.LoopPlayback` | src/audio/mixer.cpp:168-258 | F frames with c loops of length L yield exactly ceil((F + c * L) / step) output frames |
| `Mixer.OutputLength` | src/audio/mixer.cpp:197-258 | a voice with one finite buffer, at any position and with any loops left, yields the smaller of n and ceil(frames left, loops unrolled, times output rate over voice rate times pitch) |
| `Mixer.SubmittedLength` | src/audio/mixer.cpp:54-258 | so a buffer just submitted, F frames and c loops of length L, yields ceil((F + c * L) * output rate / (voice rate * pitch)) outputs |
| `Mixer.SteadyOutput` | src/audio/mixer.cpp:199-241 | inside a buffer the position after n outputs is the old one plus n * voice rate * pitch / output rate, and every output is the two frames around its position mixed by distance, down-mixed and scaled side by side |
| `Mixer.WrapsExactly` | src/audio/mixer.cpp:168-188 | normalising goes back some whole number of loop lengths, uses up that many loops, stops at or behind the loop start, and plays on exactly when a frame is left there |
| `Mixer.CompletesInOrder` | src/audio/mixer.cpp:203-258 | buffers leave a queue from the front only, whole and in order, and their tags are reported in that order or, without a callback, not at all |
| `Mixer.InfinitePlays` | src/audio/mixer.cpp:168-258 | an infinite loop fills every output and completes nothing |
| `Mixer.TotalOf` | src/audio/mixer.cpp:197-241 | the mixed sum does not depend on the order voices are visited in |
| `Mixer.Mixer.Submit` | src/audio/mixer.cpp:41-71 | exactly the playable buffers that match the voice and fit both budgets are queued; otherwise nothing changes |
| `Mixer.SubmitExactly` | src/audio/mixer.cpp:41-71 | in the fields of buffer and voice: what is let in, and the entry, position, loops and byte count it becomes |
| `Mixer.Mixer.Stop` | src/audio/mixer.cpp:81-91 | stopping keeps the queue or, with a flush, empties it and its byte counter |
| `Mixer.Mixer.Mix` | src/audio/mixer.cpp:190-260 | every running voice advances as if alone; on each side the destination grows by the sum of the voices' outputs there; completions come in each voice's own order |
| `RecorderRing.StepInv` | src/audio/output_monitor.cpp:119-148 | every ring or position access, with stale loads on both sides, keeps the ring invariant |
| `RecorderRing.NeverOverwrites` | src/audio/output_monitor.cpp:128-130 | the producer never writes over a sample the consumer has yet to read |
| `RecorderRing.FreeIsTrue` | src/audio/output_monitor.cpp:121-127 | the room computed from stale positions never wraps and never exceeds what is free |
| `RecorderRing.NothingLost` | src/audio/output_monitor.cpp:119-148 | the file is the conversion of the accepted pushes in order, each push is whole or dropped, and written, buffered, in hand and dropped samples add up to those pushed at every step |
| `RecorderRing.DrainsAll` | src/audio/output_monitor.cpp:134-148 | in every run, whenever the consumer is idle, one drain by its own steps saves everything accepted |
| `RecorderRing.PushesWhole` | src/audio/output_monitor.cpp:119-132 | and whenever the producer rests one push by its own steps is accepted whole exactly when it fits behind what is unread |
| `RecorderRing.FramesBalance` | src/audio/output_monitor.cpp:124-147 | for pushes of whole stereo frames the frame counters balance too |
| `RecorderRing.FramesBalanceExactly` | src/audio/output_monitor.cpp:124-147 | in general they balance exactly while no dropped push and no drained batch had odd length |
| `RecorderRing.HalfFrameMiscounted` | src/audio/output_monitor.cpp:124-126 | a dropped push of three samples is counted as one frame |
| `RecorderRing.PcmFits` | src/audio/output_monitor.cpp:140-141 | every converted sample fits sixteen bits |
| `RecorderRing.PcmNearest` | src/audio/output_monitor.cpp:140-141 | inside [-1, 1] no integer is nearer to 32767 times the sample, and of two equally near the one farther from zero is taken; outside it is 32767 or -32767 |
| `RecorderRing.PcmMonotone` | src/audio/output_monitor.cpp:140-141 | a larger sample is never converted to a smaller word |
| `RecorderRing.OutputRecorder.Push` | src/audio/output_monitor.cpp:119-132 | a push is appended whole to what is buffered or dropped whole and counted |
| `RecorderRing.OutputRecorder.Drain` | src/audio/output_monitor.cpp:134-148 | a drain saves the conversion of everything up to the loaded position, in order, and frees exactly that |
| `RecorderRing.OutputRecorder.Stop` | src/audio/output_monitor.cpp:160-171 | stopping saves the rest and writes the clamped length, at most once |
| `Digits.PrintDigits` | src/xbox/string_format.cpp:35-44 | the reversed printing loop gives the shortest numeral of at least the digits asked for |
| `Digits.DigitsReadBack` | src/xbox/string_format.cpp:35-44 | read in its radix it is the number printed |
| `Digits.DigitsShortest` | src/xbox/string_format.cpp:33-44 | it has the digits asked for and no leading zero beyond them; zero with none asked prints nothing |
| `Digits.DigitsUnique` | src/xbox/string_format.cpp:35-44 | no other string of the alphabet has these properties |
| `HexFloat.RoundEvenNearest` | src/xbox/string_format.cpp:62-69 | remainder, half and parity pick the nearest multiple, ties to the even one |
| `HexFloat.NearestEven` | src/xbox/string_format.cpp:53-85 | below thirteen digits no printable number is nearer to the input and ties go to even (section 4.3.1 of IEEE 754-2008), subnormals, carries and renormalising included |
| `HexFloat.Exact` | src/xbox/string_format.cpp:86-100 | with no precision, or thirteen digits or more, the printed number is the input, and without a precision no zero digit trails |
| `HexFloat.UnitsIncrease` | src/xbox/string_format.cpp:53-58 | patterns of larger magnitude have larger values |
| `HexFloat.ExactDetermines` | src/xbox/string_format.cpp:46-58 | so an exact text determines the bit pattern it was printed from |
| `HexText.RoundDigits` | src/xbox/string_format.cpp:61-85 | masks, shifts and the carry into the leading digit compute the rounding of the whole significand |
| `HexText.StripZeros` | src/xbox/string_format.cpp:86-91 | the loop drops exactly the trailing zero digits |
| `HexText.SpellReadsBack` | src/xbox/string_format.cpp:93-104 | the text, read as a C99 hexadecimal constant, gives significand, digit count and exponent back |
| `HexText.PrintHexFloat` | src/xbox/string_format.cpp:53-105 | the method's text is the rendering of that number and parses back to it |
| `Formatting.StackIsArray` | src/xbox/string_format.cpp:130-139 | past the registers both argument sources read the same arguments |
| `Formatting.PaddedWidth` | src/xbox/string_format.cpp:427-444 | a field is exactly max(width, prefix + body) long |
| `FormatProperties.SignedReadsBack` | src/xbox/string_format.cpp:275-310 | every d/i field, whatever its flags, reads back as the signed value the size prefix selects |
| `FormatProperties.SignedIsTwosComplement` | src/xbox/string_format.cpp:281-297 | that value is the two's-complement reading of the low 16, 32 or 64 bits |
| `FormatProperties.UnsignedReadsBack` | src/xbox/string_format.cpp:275-310 | an unsigned field in any radix reads back in it as the selected bits; `FormatDirectives.IntegerDirective` fixes the radix by the conversion |
| `FormatProperties.PointerReadsBack` | src/xbox/string_format.cpp:385-392 | a pointer is eight digits and reads back as the low 32 bits |
| `FormatProperties.ReadDirectiveOf` | src/xbox/string_format.cpp:187-261 | every directive the grammar allows is parsed as what it means, whatever follows it |
| `FormatProperties.ReadDirectiveBack` | src/xbox/string_format.cpp:187-261 | and whatever is read as a directive is written as the grammar says and means what it was read as |
| `FormatProperties.FormatsCompose` | src/xbox/string_format.cpp:173-445 | two formats one after the other do what the second does from where the first left off |
| `FormatProperties.DirectiveField` | src/xbox/string_format.cpp:187-444 | after any successful format, one more directive does what its parsed meaning says; the next rows say what that is in terms of how it is written |
| `FormatDirectives.MeaningIs` | src/xbox/string_format.cpp:187-261 | what flags, width, precision and size prefixes of a written directive mean: each by the characters in it and the arguments its stars take |
| `FormatDirectives.ArgumentIs` | src/xbox/string_format.cpp:130-139 | the n-th argument: registers from the fourth on for eight of them, then big-endian stack slots, or an array of slots; each taken once |
| `FormatDirectives.ToInt32Is` | src/xbox/string_format.cpp:198-233 | the argument a star takes counts as its low 32 bits in two's complement |
| `FormatDirectives.IntegerDirective` | src/xbox/string_format.cpp:275-310 | any d i u o x X p directive behind any format that succeeded fails only on a width past 0x100000 and else appends a text that reads back, in radix 10, 8 or 16 as its character says, as the value its size selects: sign or marker, fewest digits its precision allows, its case, and spaces or zeros exactly as its flags say |
| `FormatDirectives.StringDirective` | src/xbox/string_format.cpp:402-416 | any s or S directive appends the guest string at its argument, in the units its prefix selects, up to its terminator or precision, padded |
| `FormatDirectives.CharacterDirective` | src/xbox/string_format.cpp:365-371 | any c or C directive appends the low 8 or 16 bits of its argument, padded |
| `FormatDirectives.CountedDirective` | src/xbox/string_format.cpp:107-126 | any Z directive appends as many bytes or units as its descriptor counts, from its buffer, cut to the precision |
| `FormatDirectives.FloatDirective` | src/xbox/string_format.cpp:311-360 | any float directive appends a sign and, of the magnitude, its name when it is no number, a hexadecimal constant that reads back as the number to print, or what the host prints; zeros pad only numbers |
| `FormatDirectives.CountDirective` | src/xbox/string_format.cpp:393-401 | any n directive appends nothing and stores how many units came before it |
| `FormatDirectives.LiteralText` | src/xbox/string_format.cpp:157-186 | text without a percent sign is appended as it stands, a doubled percent sign as one |
| `FormatDirectives.FailsOtherwise` | src/xbox/string_format.cpp:157-425 | a percent sign followed by anything else than these fails the format |
| `FormatProperties.GuestStringIs` | src/xbox/string_format.cpp:141-155 | a guest string is read up to its terminator or the limit, whichever comes first |
| `FormatProperties.HexFieldReadsBack` | src/xbox/string_format.cpp:311-333 | a finite a/A field reads back as its sign and number exactly when zero padding added nothing |
| `FormatProperties.HexZeroPadded` | src/xbox/string_format.cpp:427-444 | `%010a` of 1.0 gives 00000x1p+0, which is no constant |
| `FormatProperties.StoredCount` | src/xbox/string_format.cpp:393-401 | %n stores the number of units produced before it in 16 or 32 bits and changes no other byte |
| `StringFormat.Arguments.Next64` | src/xbox/string_format.cpp:130-139 | each call returns the next slot and advances by one |
| `StringFormat.TakeFlags` | src/xbox/string_format.cpp:187-197 | the flag loop takes the longest run of flags and sets exactly those seen |
| `StringFormat.TakeDecimals` | src/xbox/string_format.cpp:208-213 | digits are accumulated, refused past the limit or at the end of the format |
| `StringFormat.TakeWidth` | src/xbox/string_format.cpp:198-214 | a width from digits or from an argument, a negative one left-aligning |
| `StringFormat.TakePrecision` | src/xbox/string_format.cpp:215-233 | a precision from digits or from an argument, a negative one as none |
| `StringFormat.TakeSizes` | src/xbox/string_format.cpp:234-261 | the size loop reads prefix after prefix |
| `StringFormat.IntegerConversion` | src/xbox/string_format.cpp:275-310 | the conversion yields the field whose read-back is proved above |
| `StringFormat.FloatConversion` | src/xbox/string_format.cpp:311-360 | non-finite and hexadecimal conversions are produced, the rest taken from the host |
| `StringFormat.ReadGuestString` | src/xbox/string_format.cpp:141-155 | units up to a terminator or the limit |
| `StringFormat.ReadCountedString` | src/xbox/string_format.cpp:109-126 | a counted string of bytes or of 16-bit units |
| `StringFormat.AppendField` | src/xbox/string_format.cpp:427-444 | padding and both emit loops append exactly the padded field or refuse it |
| `StringFormat.Format` | src/xbox/string_format.cpp:157-449 | the whole loop terminates and computes the specified text, whose every piece the rows of `FormatDirectives` describe; failure gives -1 and no text; the count is the length exactly when that fits a signed 32-bit integer |
| `Unicode.UnitsSurvive` | src/xam/xam_content_exports.cpp:61-109 | any units, unpaired surrogates included, survive the way into UTF-8 and back |
| `Unicode.NameIsValid` | src/xam/xam_content_exports.cpp:60-82 | the encoder's text is accepted by the validator exactly when the name has no unpaired surrogate |
| `Unicode.PairedIsScalar` | src/xam/xam_content_exports.cpp:62-67 | joining pairs leaves only scalar values exactly when every surrogate is paired |
| `Unicode.ValidEncode` | src/network/types.cpp:40-77 | the encoding of code points is valid exactly when all of them are scalar values |
| `Unicode.ScalarsEncode` | src/network/types.cpp:40-77 | a valid text is the encoding of the scalar values it spells |
| `Unicode.ValidIsUtf8` | src/network/types.cpp:40-77 | validity is being the UTF-8 form of some scalar values (section 4 of RFC 3629) |
| `ContentData.ValidUtf8` | src/network/types.cpp:40-77 | the validator's loop decides exactly that |
| `ContentData.ReadDisplayName` | src/xam/xam_content_exports.cpp:53-84 | the display name is the UTF-8 form of the field's units up to a zero |
| `ContentData.EncodeUnits` | src/xam/xam_content_exports.cpp:61-83 | the encoder loop, a high surrogate taking the low one behind it along |
| `ContentData.ToUtf16` | src/xam/xam_content_exports.cpp:87-109 | the lenient decoder loop, on any bytes at all |
| `ContentData.ReadFileName` | src/xam/xam_content_exports.cpp:30-38 | the file name is the field's bytes up to a zero |
| `ContentData.SerializeContentData` | src/xam/xam_content_exports.cpp:123-145 | the written structure holds the stated byte at each of its 308 offsets |
| `ContentData.WordsReadBack` | src/xam/xam_content_exports.cpp:123-131 | the big-endian words at offsets 0 and 4 read back as device and content type |
| `ContentData.NameRoundTrip` | src/xam/xam_content_exports.cpp:53-145 | reading and serialising a name keeps its first 127 units at their offsets; the whole name exactly when it has at most 127 |
| `ContentData.FullNameLosesOne` | src/xam/xam_content_exports.cpp:53-145 | a name of 128 letters comes back with 127 |
| `ContentData.FileRoundTrip` | src/xam/xam_content_exports.cpp:30-144 | the file name comes back byte for byte, padded with zeros |
| `ContentData.TextSurvives` | src/xam/xam_content_exports.cpp:61-109 | valid text survives the way into UTF-16 and back |
| `ContentData.ItemRoundTrip` | src/xam/xam_content_exports.cpp:53-145 | a valid display name is read back from its structure exactly when it has at most 127 units, none zero |
| `CompilationCache.SoundStep` | tools/compilation_cache.py:37-84 | every step of any process, crash and damage keeps manifests and remembered digests vouched for |
| `CacheRuns.AcceptedIsPromoted` | tools/compilation_cache.py:37-50 | in every run an accepted entry holds the payload of some promotion of that same request, even when manifest and payload were read at different moments |
| `CacheRuns.LookupChecksManifest` | tools/compilation_cache.py:37-44 | the first read of a lookup goes on exactly when the manifest in place parses and names this very request, and otherwise misses |
| `CacheRuns.LookupChecksPayload` | tools/compilation_cache.py:45-50 | in every run the second read hits exactly when the payload then in place is the one whose digest was remembered and misses otherwise; damage still in place lets it hit only if it left that payload |
| `CacheRuns.HitWhilePromoted` | tools/compilation_cache.py:37-50 | in every run a process becomes a hit by that second read alone, and only while the name leads to a payload some promotion of this request offered |
| `CacheRuns.LookupExactly` | tools/compilation_cache.py:37-50 | undisturbed, a lookup runs to its end and hits exactly when manifest and payload in place belong together and to the request |
| `CompilationCache.StepInv` | tools/compilation_cache.py:52-84 | every step, crash and damage keeps it that stages are private, entries distinct, and every directory holds what its promotion or the last damage noted for it left there |
| `CacheRuns.RenamedVerifies` | tools/compilation_cache.py:61-70 | in every run with any damage, the entry a promotion renames into place verifies exactly when its own stage kept its manifest and the last damage to it since the copy, if any, left the payload that was hashed; it holds a promoted payload exactly when that damage left one |
| `CacheRuns.ReturnsWithEntry` | tools/compilation_cache.py:69-81 | in every run a promotion returns normally only by its rename or after reading an entry that verified, and then with a promoted payload in place, unless the last damage to the stage it renamed left another |
| `CacheRuns.StageDamageReturns` | tools/compilation_cache.py:61-81 | a stage damaged between check and rename: `promote` returns normally with a bad entry in place |
| `CachePromotion.FinishingVerifies` | tools/compilation_cache.py:69-84 | undisturbed, a promotion with a finished, unharmed stage returns normally with a verified entry: a good one in place is kept, a bad one set aside and replaced, an empty one replaced either way its rename goes |
| `CacheRuns.CopyIsUnchecked` | tools/compilation_cache.py:158-163 | in every run the output of a hit is a payload promoted for its own request exactly when the last damage, since its payload was copied in, to the directory under the name at the copy left such a payload |
| `CacheRuns.HitIsPromoted` | tools/compilation_cache.py:157-163 | so without damage to payloads every output is a promoted one, even if manifests are lost or the entry was replaced meanwhile |
| `CacheRuns.HitCopiesDamage` | tools/compilation_cache.py:157-163 | a run in which a hit hands out a payload nobody promoted, damaged between its check and its copy |
| `ProfileBuffer.ReadProfileSettings` | src/xam/xam_profile_settings_exports.cpp:94-182 | the four outcomes by their conditions; on success the whole layout is in place and no byte outside the computed size changes |
| `ProfileBuffer.IdParts` | include/xenon/xam/profile_settings.hpp:30-40 | an id put together from type, size, two bits and number gives type and size back, and is title-specific exactly for the numbers 0x3F00 to 0x3FFF |
| `ProfileBuffer.PartsOfId` | include/xenon/xam/profile_settings.hpp:30-35 | every id is put together in that way |
| `ProfileBuffer.WriteEntry` | src/xam/xam_profile_settings_exports.cpp:151-178 | one entry's ten words and its data block, and nothing else |
| `ProfileBuffer.DataFits` | src/xam/xam_profile_settings_exports.cpp:110-118 | all data written for a request fits the size its ids declare |
| `ProfileBuffer.LayoutFits` | src/xam/xam_profile_settings_exports.cpp:110-147 | the layout ends within the size computed for it |
| `ProfileBuffer.LayoutIsDisjoint` | src/xam/xam_profile_settings_exports.cpp:144-180 | header, entries and data blocks lie apart and inside the computed size: every entry behind the header and before all blocks, every block inside, and each in order from every later one |
| `ProfileBuffer.PointerLeadsToData` | src/xam/xam_profile_settings_exports.cpp:164-173 | a nonzero data pointer leads to its own value's bytes |
| `ProfileBuffer.QueryIsEnough` | src/xam/xam_profile_settings_exports.cpp:110-122 | the size a query returns is enough for the same request when the size slot lies apart from the ids |
| `ProfileBuffer.QueryIsEnoughExactly` | src/xam/xam_profile_settings_exports.cpp:110-122 | in general exactly when the ids, read again, do not declare more data |
| `ProfileBuffer.OverlappingQuery` | src/xam/xam_profile_settings_exports.cpp:110-122 | a size slot over the ids for which the second call is refused again |
| `ProfileWriting.EntryFields` | src/xam/xam_profile_settings_exports.cpp:46-163 | the fields of a laid-out entry read at the offsets of its structure: id, source, type byte and owner |
| `ProfileWriting.HeaderFields` | src/xam/xam_profile_settings_exports.cpp:147-148 | the header counts the entries and points behind itself |
| `ProfileWriting.ItemIs` | src/xam/xam_profile_settings_exports.cpp:149-159 | which setting, owner and value the entry of the p-th profile and the i-th id is for |
| `ProfileWriting.ItemCount` | src/xam/xam_profile_settings_exports.cpp:133-150 | there are as many entries as profiles times ids |
| `ProfileWriting.WriteProfileSettings` | src/xam/xam_profile_settings_exports.cpp:239-281 | the write call: how it fails, and otherwise the values of all entries in order, handed over even when one cannot be saved |
| `ProfileWriting.TakenBack` | src/xam/xam_profile_settings_exports.cpp:151-277 | an entry that a read laid out is stored, when written back, as the value that was read, data cut to the declared size and content emptied |
| `ProfileWriting.SkippedBack` | src/xam/xam_profile_settings_exports.cpp:256-260 | it is skipped exactly when its value, or content where it has none, is not of its id's type |
| `ProfileWriting.ReadWriteBack` | src/xam/xam_profile_settings_exports.cpp:151-277 | so reading and writing back changes nothing exactly when data is no longer than declared and content is empty |
| `ProfileWriting.AllReturned` | src/xam/xam_profile_settings_exports.cpp:149-277 | a whole result handed back stores every setting that was read, in order |
| `ProfileWriting.ContentIsLost` | src/xam/xam_profile_settings_exports.cpp:164-270 | a content setting of one byte comes back empty |
| `Realtime.Controller.Start` | src/network/realtime.cpp:39-76 | a start stops what ran and begins the next generation, dialling with its endpoint and token and all counters at zero, or refuses: the exact strings it takes |
| `Realtime.ConfigurationIs` | src/network/realtime.cpp:43-49 | the test for UTF-8 refuses nothing the test for printable characters lets pass |
| `Realtime.Controller.Stop` | src/network/realtime.cpp:185-202 | stopping erases endpoint and token and moves the generation on, once |
| `Realtime.Controller.ConnectOnce` | src/network/realtime.cpp:78-107 | only the running generation dials, with its own endpoint and token |
| `Realtime.Controller.HandleState` | src/network/realtime.cpp:148-183 | a reconnect is scheduled exactly for a current generation that drops, by a retryable failure or without any, below the limit; phase, counters and all other fields after it |
| `Realtime.Controller.HandleEvent` | src/network/realtime.cpp:109-146 | a valid event of the connected generation is delivered, an invalid one stops the controller |
| `Realtime.EventIs` | src/network/realtime.cpp:19-24 | a valid event has two names of one to 256 letters, digits and marks, and a UTF-8 payload within the configured size |
| `Realtime.ReconnectDials` | src/network/realtime.cpp:148-183 | undisturbed, a drop below the limit is scheduled, fires and dials again with the same endpoint and token, one retry later |
| `Realtime.RunsAreBounded` | src/network/realtime.cpp:148-183 | in every run reconnects since the last start or connection stay within the maximum, the counter is those of the generation, and stopped means erased |
| `Realtime.StaleForever` | src/network/realtime.cpp:78-119 | once a generation is stopped or superseded its callbacks and timers change nothing for the rest of any run |
| `Realtime.HaltKills` | src/network/realtime.cpp:185-199 | a stop makes every generation begun so far stale |
| `Realtime.CallsCarryStarts` | src/network/realtime.cpp:78-106 | the channel is only ever dialled with the endpoint and token of one start |
| `Realtime.HeardExactly` | src/network/realtime.cpp:50-183 | in every run a generation is heard exactly when it is the running one, its last dial or callback reported Connected, and no start was refused since |
| `Realtime.MutedUntilConnected` | src/network/realtime.cpp:50-183 | after a refused start nothing is heard until the next Connected callback, which makes the running generation heard again |
| `Realtime.RefusedStartMutes` | src/network/realtime.cpp:50-119 | a run in which a start refused on another thread marks a dialled, connected and running channel unavailable, so that its valid event is dropped |
| `ThunkRegistry.KeyInjective` | src/xbox/module_registry.cpp:53-55 | different exports have different keys, whatever the library is called |
| `ThunkRegistry.MintedInv` | src/xbox/module_registry.cpp:146-175 | minting keeps the maps inverse and every thunk placed in an owned page, across page changes |
| `ThunkRegistry.MintedWhere` | src/xbox/module_registry.cpp:146-174 | a thunk is where it was, else sixteen bytes behind the last while the page has room, else at the start of the page offered |
| `ThunkRegistry.AddressesStay` | src/xbox/module_registry.cpp:146-152 | an address once handed out stays that export's, however many are minted later |
| `ThunkRegistry.MapsAreInverse` | src/xbox/module_registry.cpp:171-172 | over any run an address dispatches to an export exactly when it is that export's address |
| `ThunkRegistry.ThunksAreApart` | src/xbox/module_registry.cpp:153-167 | thunks are aligned, inside allocated pages and pairwise disjoint |
| `ThunkRegistry.NameThenOrdinal` | src/xbox/module_registry.cpp:192-225 | where no variable shadows either, lookups by name and later by ordinal give the same address, and it dispatches to that export |
| `ThunkRegistry.OrdinalLookup` | src/xbox/module_registry.cpp:177-201 | a lookup by ordinal case by case: the first entry of the executable with an address, a variable, the thunk of a function, or a failure |
| `ThunkRegistry.NameLookup` | src/xbox/module_registry.cpp:203-226 | a lookup by name case by case |
| `ThunkRegistry.ShadowParts` | src/xbox/module_registry.cpp:192-225 | a variable over the ordinal alone parts the two lookups unless it stands at the thunk's address |
| `ThunkRegistry.BaseNameOf` | src/xbox/module_registry.cpp:47-51 | a path and its last component are looked up alike |
| `ThunkRegistry.WantedOf` | src/xbox/module_registry.cpp:40-51 | a module is looked up by what follows the last of the three separators, A to Z made small and nothing else changed |
| `ThunkRegistry.Registry.MintThunk` | src/xbox/module_registry.cpp:146-175 | the thunk of an export, minted with its code when there is none, every earlier thunk's code undisturbed |
| `ThunkRegistry.Registry.ProcedureAddress` | src/xbox/module_registry.cpp:177-201 | lookup by ordinal, with each way it can fail |
| `ThunkRegistry.Registry.ProcedureAddressByName` | src/xbox/module_registry.cpp:203-226 | lookup by name, with each way it can fail |
| `ThunkRegistry.Registry.ThunkTarget` | src/xbox/module_registry.cpp:228-234 | an address dispatches to an export exactly when it is the address minted for that export |
| `ThunkRegistry.Registry.SystemModule` | src/xbox/module_registry.cpp:89-118 | one record for each library: repeated lookups give the same, the first writes it where memory was given |
| `ThunkRegistry.RecordFields` | src/xbox/module_registry.cpp:97-112 | the fields of a record at the offsets of its structure |
| `ThunkRegistry.Registry.ModuleHandle` | src/xbox/module_registry.cpp:120-138 | the executable by the empty name or its own, a system module by either spelling as the record it has or a new one at the place offered, nothing else |
| `ThunkRegistry.Registry.SetExecutable` | src/xbox/module_registry.cpp:63-80 | a new executable replaces the last and leaves system records and thunks alone |
| `ThunkRegistry.Registry.ClearExecutable` | src/xbox/module_registry.cpp:82-87 | the executable's record goes, everything else stays |

## Left out

- The 64-bit wrap of sequence numbers, versions, positions and counters: all are unbounded here.
- The enabled flag of the diagnostic ring, its clock and its formatting and lookup helpers: settled by reading one branch.
- Memory orderings weaker than sequential consistency; the recorder's stale position loads are modelled.
- The pump's timed waits and notifications: a pump pass may begin at any moment, which allows every wake-up there is.
- The contents of a callback's argument wrapper, and what a guest callback does apart from its calls into the audio system.
- The downmix of guest frames, ducking, metering, master gain and the final clamp of `render`: floating-point arithmetic with no invariant.
- Rounding of the mixer's positions and samples: exact reals stand for doubles and floats; interleaved pairs are stereo frames.
- Voice creation, destruction, volume, pitch and routing setters of the mixer: each is one assignment.
- Recorder start or stop racing an active push, and the header's fixed fields.
- RecorderRing.OutputRecorder.Push: the position it loads is a parameter within the range the protocol proves, because a routine run alone has no other side to be stale against.
- The host's decimal float conversions (e, f, g) are a parameter, and faults on unmapped guest strings are not modelled: unmapped bytes read as zero.
- StringFormat.TakeWidth: a `*` width of exactly -2^31, whose negation overflows in the program, is refused here as too wide.
- The size of a field or output beyond a signed 32-bit integer, apart from the returned count.
- Fields of the content structure other than the names and the two leading words, and listing several structures.
- Compiler invocation, request construction, receipts and pruning of the cache; Python's errors are one failing step that can happen at any point of a promotion.
- CacheRuns.RenamedVerifies: damage to a manifest leaves one that does not parse; a manifest forged to name another digest is not modelled.
- Persistence of settings, the notification and the overlapped completion of the two calls, and the current title that a zero title id stands for.
- ProfileBuffer.ReadProfileSettings: a result buffer that would run past the end of the address space is excluded; an access across that end faults (src/memory/guest/access/guest_access.cpp:925-934), and faults are not modelled.
- The delay computed for a reconnect and the callbacks' own effects; a channel may call back at any time with any generation it was dialled for.
- The export registry's registration rules: its tables are parameters, and agreement between them is a condition of `NameThenOrdinal`.
- ThunkRegistry.Registry.MintThunk: guest code that overwrites a thunk's bytes is not modelled.
- Two lock-protected rings (export trace and memory watch), the remaining export handlers, windowing, graphics, sockets and the launcher: no harder invariant than those above.
