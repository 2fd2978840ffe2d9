# Verified models of the co library

This project models the hardest parts of the `co` coroutine library in Dafny and proves what they are
for. `dafny verify dfyconfig.toml` checks the whole project.

| part | files | main results |
|---|---|---|
| substring search | Words, MaximalSuffix, TwoWay, ReverseSearch | `memmem` returns the first occurrence for all inputs, resting on the critical factorization theorem and one safety lemma per shift rule; searching compares at most `2 * |haystack| - |needle|` bytes; `memrchr` and `memrmem` return the last one |
| glob matching | Glob | `match` decides whether the text can be divided among the characters of the pattern, though it goes back only to the last star |
| path cleaning | PathClean | the in-place rewriting equals a stack of components; idempotent, normal as a text, and leads to the same place |
| channels | Channel, ChannelSafety, ChannelTheorems, ChannelCalls, Pipes, Unbuffered | over every interleaving of reads, writes, timeouts, wake-ups and closing: values received followed by buffered ones are those accepted, in order; each waiter settles once and is woken exactly once by whoever served it; while the channel is open only a time limit makes a call fail, callers are served in turn, and objects are copied, moved or left alone as asked; a closed channel delivers what was buffered and what waiting writers offer, in order, before reads fail; both implementations refine the same bounded queue |
| mutex and lists | Mutex, BlockQueue, CList | in every run at most one party that was told that it owns the mutex has not unlocked since; first-come hand-over; the queue in blocks of 13 places, kept in the linked list, is a plain queue; the linked list is a sequence |
| JSON | JsonText, JsonUtf8, JsonGrammar, JsonRfc, JsonRfcTheorems, JsonLexer, JsonNodes, JsonParser, JsonPrinter, JsonRoundTrip | the goto parser with two stacks accepts exactly a recursive grammar and builds its tree; the accepted texts are exactly those of RFC 8259 relaxed in three ways whose numbers fit and whose surrogates are paired, and the tree read is what the derivation of the text means; on success and on every error the tree holds each node and key ever allocated exactly once; both printers are inverted by it exactly for trees whose keys hold no quote and no NUL |
| scheduler | SharedStacks, CoroutinePool, PooledStacks, Timer, SchedLoop | coroutines on shared stacks find what they left, as on private ones; the pool never hands out an index in use, except through one fallback whose exact condition is proved; run together, the pool gives the stacks what they rely on; timers and their cached iterator; whatever races to end a wait, an expired time limit ends it if it is open, and the loop resumes a coroutine once per wait and tells it truly whether its time limit won |
| hashes | Word32, WordBytes, HashBlocks, Sha256Rounds, Sha256Constants, Sha256, Sha256Answer, Md5Rounds, Md5, Md5Answer | the circular schedule and rotating registers are section 6.2.2 of FIPS 180-4; the 64 written-out steps of MD5 are section 3.4 of RFC 1321; any split of the input gives the digest of the whole padded message, for both; the constants of SHA-256 are bits of the roots of the first primes, and a known digest of each hash is worked out round by round |

`Options` holds the option type the modules share, `Division` facts about quotients and remainders.

## How the code is modelled

- **Search.** The code's `SIZE_MAX` is -1. The two loops of `critical_factorization` are one method with a
  flag for the byte order. The comment at src/two_way.h:166 says that the longer suffix is chosen; the code
  chooses the one that starts later, which is the shorter one, and that is what is modelled and proved
  critical.
- **Channels.** A state machine with one atomic step per critical section and per compare-and-swap: starting a
  read or a write, a timeout, the continuation of a coroutine, a blocked thread waking up, and the two halves of
  `close`. A coroutine continues only after `add_ready_task`, which is counted for each call; a blocked thread may
  wake up at any time and blocks again if it has no verdict; `notify_all` unblocks every thread. Blocks
  are elements of type `Value`; each place is raw, live or moved from, and the `ok` flag of a call turns false
  if an object is constructed over a live one, destroyed twice, or a record is freed twice.
- **JSON.** Positions are indices. The escape, hex and digit tables are those of `src/json.h.in`. A double
  is kept as its text, and the parameter `fits` says whether `strtod` accepts it without overflow. Every node and
  every key gets the next free address when it is allocated.
- **Scheduler.** A running coroutine is an arbitrary write to its whole stack followed by `yield` with some
  stack pointer, or by its end. Stack pointers are offsets. Heap blocks have identities, so that who owns
  a saved buffer can be stated; growing a block always moves it.
- **The loop.** `SchedLoop` is a state machine over waits, timers and the two lists to resume. Other parties may claim
  a waiting context at any time, even before its coroutine has yielded; I/O events find the coroutine registered
  for them; an `io_event` registers its coroutine before it first waits and unregisters it at the end of its life; the
  clock is any number of entries at the front of the timers.
- **Timers.** An iterator is the identity of a map entry. Where `emplace_hint` puts an entry among
  those with the same key is left open.
- **Hashes.** Words are 32-bit vectors, bytes are integers below 256. A known answer follows the specification
  from the padding to the output; it holds of the code because the code is proved to compute the specification.

Where the code and its comments disagree, the code is modelled. Five findings:

- `CoroutinePool::pop` can return an index that is in use. After the current block has moved down to a freed
  block, the fallback at src/co/sched.h:174 takes the next block without looking whether it is in use.
  `CoroutinePool.FallbackCanCollide` gives a run that gets there, and `CoroutinePool.FallbackCollidesIff` proves
  that a fallback is harmless if and only if the current block is the highest one ever used.
- A channel whose buffer holds no element, which `chan` allows, is not sound once a read meets a waiting writer: the
  value is built over the object of the caller, which is not destroyed before. Two reads, or two writes, waiting at the
  same time are taken for the other side, and `close` wakes nobody. `Unbuffered.TwoCallsSoundIff` shows that of two
  calls on a new channel only a read and then a write go well, `Unbuffered.DirectRunSoundIff` says exactly which runs
  are sound, and `Unbuffered.CloseLeavesWaiting` that `close` leaves every waiting caller where it is.
- Not every text of RFC 8259 is accepted: keys are read raw, so a key with an escaped quote is refused
  (`JsonRfcTheorems.QuoteInKeyRefused`), and so is a high surrogate without a low one.
  `JsonRfcTheorems.RfcTextAcceptedIff` and `JsonRfcTheorems.AcceptedIff` say exactly what is accepted. An accepted text
  of the standard is read as what the standard says it means if and only if no key has an escape
  (`JsonRfcTheorems.RfcMeaningReadIff`).
- The capacity of a saved stack is a 32-bit number. `SharedStacks.Sched.Append` says exactly when the bytes appended lie
  inside the block, and `SharedStacks.StackSizeIsSafeIff` that they always do if and only if the stack size is at most
  1717986915 bytes: with one byte more, saving 1717986915 bytes and then 1717986916 writes behind the block
  (`SharedStacks.LargerStackOverruns`).
- A printed object is read back as the same tree if and only if none of its keys holds a quote or a NUL, because
  keys are printed raw, as C strings, and read raw up to the next quote.

## Model

| member | source | states |
|---|---|---|
| Words.CriticalFactorization | src/two_way.h:68-90 | The critical factorization theorem in the form the search needs: of the two maximal suffixes, for the byte order and its reverse, the one that starts later splits the word so that every local period at the split is a period of the word and longer than the left half. |
| Words.LocalRepIsPeriod | src/two_way.h:98-106 | The heart of it: a local repetition at the chosen split that is longer than the left half is a global period. |
| Words.LocalRepExceedsLeft | src/two_way.h:98-106 | No local repetition at a maximal suffix is as short as the left half. |
| Words.DistinctHalvesHaveLongPeriod | src/two_way.h:225-227 | If the period of the right half is not a period of the needle, then every period of the needle is longer than both halves, which justifies the maximal shift. |
| MaximalSuffix.SmallerByteMakesBlock | src/two_way.h:116-120 | A smaller byte makes the whole candidate scanned so far one block, whose length is its least period. |
| MaximalSuffix.EqualByteExtends | src/two_way.h:121-128 | An equal byte extends the current repetition or starts the next one. |
| MaximalSuffix.LargerByteRestarts | src/two_way.h:129-134 | A larger byte beats the candidate and every start inside it, so the scan may begin anew at the current location. |
| MaximalSuffix.ScanEnds | src/two_way.h:113-136 | When the needle is used up, the candidate is the maximal suffix and `p` its least period. |
| MaximalSuffix.FindMaxSuffix | src/two_way.h:109-164 | Each pass finds the maximal suffix of the needle and the least period of that suffix in at most twice as many steps as the needle has bytes, though the candidate may restart. |
| TwoWay.CriticalSplit | src/two_way.h:91-171 | The split returned is critical, the period returned is the least period of the right half, and the two passes take at most four steps per byte. |
| TwoWay.RightMismatchShift | src/two_way.h:220 | Shifting past a mismatch in the right half skips no occurrence. |
| TwoWay.PeriodShift | src/two_way.h:215-218 | After a match of the right half and a mismatch in the left one, shifting by the period skips no occurrence. |
| TwoWay.DistinctHalvesShift | src/two_way.h:225-241 | With distinct halves, shifting by one more than the longer half skips no occurrence. |
| TwoWay.BadByteShift | src/two_way.h:293-302 | Shifting by the table entry of the last byte of the window skips no occurrence. |
| TwoWay.MemoryShift | src/two_way.h:295-300 | In a periodic needle with remembered repetitions, a misplaced last byte rules out every match before the whole memory has passed. |
| TwoWay.MemoryAfterShift | src/two_way.h:217-218 | After a shift by the period the remembered part of the needle is known to match. |
| TwoWay.PeriodicTest | src/two_way.h:197 | Comparing the left half with what follows one period later tells whether the period of the right half is a period of the needle; the comparison stays inside the needle. |
| TwoWay.SearchPeriodic | src/two_way.h:198-223 | The loop with memory finds the first occurrence with at most 2h - n comparisons. |
| TwoWay.SearchDistinct | src/two_way.h:224-245 | The loop for distinct halves finds the first occurrence with at most 2h - n comparisons. |
| TwoWay.ShortNeedle | src/two_way.h:183-247 | Returns the first occurrence of a short needle, or none exactly if there is none, with at most 2h - n comparisons. |
| TwoWay.FillShiftTable | src/two_way.h:278-279 | Each table entry is the distance of the last occurrence of the byte from the end of the needle, or the length of the needle if the byte is absent. |
| TwoWay.SearchPeriodicLong | src/two_way.h:283-326 | The loop with memory and table finds the first occurrence with at most 2h - n comparisons. |
| TwoWay.SearchDistinctLong | src/two_way.h:327-358 | The loop with the table for distinct halves finds the first occurrence with at most 2h - n comparisons. |
| TwoWay.LongNeedle | src/two_way.h:261-360 | Returns the first occurrence of a long needle, or none exactly if there is none, with at most 2h - n comparisons. |
| TwoWay.Memmem | src/fastring.cc:43-58 | For every haystack and needle, the empty ones included: the smallest index at which the needle occurs, or none exactly if it does not occur. |
| ReverseSearch.WordHasByte | src/fastring.cc:8-11 | The subtract-and-mask test on eight bytes xor the repeated byte holds if and only if one of them is that byte. |
| ReverseSearch.Memrchr | src/fastring.cc:13-37 | Byte by byte to a word boundary, word by word, and byte by byte again: the last index of the byte, or none exactly if it is absent, for every alignment. |
| ReverseSearch.ShiftBack | src/fastring.cc:103-106 | Moving the window so that the byte in front of it meets its first place in the needle skips no occurrence. |
| ReverseSearch.FillOffsets | src/fastring.cc:96-97 | Each entry is one more than the first index of the byte in the needle, or 0 if it is absent. |
| ReverseSearch.Memrmem | src/fastring.cc:88-108 | The largest index at which the needle occurs, or none exactly if it does not occur. |
| Glob.LastStarSuffices | src/fastring.cc:121-135 | Once literal bytes after a star have matched up to another star, only the later star needs to be reconsidered. |
| Glob.StarMovesOn | src/fastring.cc:131-135 | After a mismatch, letting the last star take one more byte loses no match. |
| Glob.MatchesIff | src/fastring.cc:110-145 | The recursive meaning of a pattern is that the text can be divided among its characters: a star gets any stretch, the others one byte each, which must be the same unless the pattern has a question mark. |
| Glob.StripLast | src/fastring.cc:111-116 | A last pattern byte other than a star can be matched against the last byte of the text, and both dropped. |
| Glob.StepBack | src/fastring.cc:129-137 | Going back to the last star keeps the loop invariant, and giving up without one means that there is no match. |
| Glob.StripEnd | src/fastring.cc:111-116 | Stripping the end of text and pattern keeps the answer, and fails only if there is no match. |
| Glob.MatchStars | src/fastring.cc:118-144 | The main loop decides whether text and pattern match, and ends. |
| Glob.Match | src/fastring.cc:110-145 | Returns true if and only if the text can be divided among the characters of the pattern, a star standing for any stretch and a question mark for any byte. |
| PathClean.Backtrack | src/path.cc:31-33 | Going back to the last slash removes exactly the last component. |
| PathClean.UpElement | src/path.cc:27-41 | A `..` removes a component, is kept at the front of a relative path, or is dropped at the root; the write index does not pass the read index. |
| PathClean.AppendName | src/path.cc:43-53 | A name is appended behind a slash where one is needed, without overwriting what is still to be read. |
| PathClean.Clean | src/path.cc:6-59 | The in-place loop writes the rendering of the stack that the components of the input make, for every input. |
| PathClean.CleanIsNormal | src/path.cc:6-59 | The stack has no empty and no `.` component, and `..` only as a leading run of a relative path. |
| PathClean.ComponentsAreSplit | src/path.cc:14-53 | The components are the pieces between the slashes of the path that are not empty. |
| PathClean.CleanText | src/path.cc:6-59 | The text of a cleaned path is not empty, begins with a slash exactly if the path did, has no two slashes in a row and none at the end but that of the root, and is a dot or consists of names after a leading run of `..`, which a rooted path lacks. |
| PathClean.CleanIsIdempotent | src/path.cc:6-59 | Cleaning a cleaned path changes nothing. |
| PathClean.CleanLeadsToSamePlace | src/path.cc:6-59 | From every current directory, without symbolic links, the cleaned path leads where the path leads. |
| ChannelSafety.InitInv | src/co/co.cc:421-440 | A new channel satisfies the invariant. |
| ChannelSafety.ReadBuffered | src/co/co.cc:524-565 | Reading from a non-empty buffer keeps the invariant and takes back nothing decided before, the refill by the first writer that still waits, and its wake-up, included. |
| ChannelSafety.ReadEmpty | src/co/co.cc:595-605 | Reading from an empty buffer keeps the invariant, whether the read fails on a closed channel or is queued; that it is queued on an open one is `ChannelCalls.OpenCallsWait`. |
| ChannelSafety.WriteRefused | src/co/co.cc:671-674 | Writing to a closing channel keeps the invariant. |
| ChannelSafety.WriteBuffered | src/co/co.cc:676-682 | Writing to a buffer that is neither empty nor full keeps the invariant. |
| ChannelSafety.WriteEmpty | src/co/co.cc:684-716 | Writing to an empty buffer keeps the invariant, whether the first reader that still waits is served and woken or the value is buffered. |
| ChannelSafety.WriteWaits | src/co/co.cc:718-730 | Queueing a writer of a full buffer keeps the invariant, with or without a copy of its value. |
| ChannelSafety.TimeoutKeeps | src/co/sched.cc:287-295 | A timeout that wins the compare-and-swap keeps the invariant; the record stays queued until the other side drops it. |
| ChannelSafety.ResumeKeeps | src/co/co.cc:611-627 | The continuation of a caller that was served or woken moves its value out, frees its record once, keeps the invariant and returns the verdict. |
| ChannelSafety.AwakeKeeps | src/co/co.cc:635-652 | A blocked thread that wakes up, notified or not, continues if it has its verdict and blocks again if not; both keep the invariant. |
| ChannelSafety.WokenHasVerdict | src/co/co.cc:611-624 | A coroutine that was handed to its scheduler has its verdict when it continues, so the assertion of the code holds. |
| ChannelSafety.CloseEachOk | src/co/co.cc:786-803 | `close` gives each waiting reader its verdict and wakes it, frees the records of those that timed out, leaves every call in order, and touches neither log. |
| ChannelSafety.StepKeepsInv | src/co/co.cc:524-809 | Every step that can happen keeps the invariant and takes back nothing that was decided. |
| ChannelSafety.RunKeepsInv | src/co/co.cc:524-809 | Hence it holds throughout every run. |
| ChannelTheorems.ReceivedThenBufferedIsAccepted | src/co/co.cc:524-779 | In every run the values accepted are those received followed by the buffered ones, in order; the buffer never holds more than its capacity; a non-empty wait queue means an empty buffer with only readers queued, or a full one with only writers queued. |
| ChannelTheorems.ResultsAreHonest | src/co/co.cc:661-666 | A read reports success if and only if it received a value, and then its object holds the value of its own entry; otherwise the object is what it was. A write reports success if and only if its value has an entry among those accepted. |
| ChannelTheorems.EachValueOnce | src/co/co.cc:510-522 | Different places of either log belong to different calls, and the value received in a place is what the writer accepted in that place wrote. |
| ChannelTheorems.NothingLostOrFreedTwice | src/co/co.cc:510-561 | In every run no object is constructed over a live one or destroyed twice and no record freed twice; every call has returned or has a record; it is queued exactly if its record has no verdict, and a returned call has a record only if it timed out. |
| ChannelTheorems.WokenExactlyOnce | src/co/co.cc:544-561 | In every run a coroutine was handed to its scheduler exactly once if its verdict was given, and never if it still waits, timed out or did not have to wait; a thread that has its verdict is not left blocked. |
| ChannelTheorems.ServedCanContinue | src/co/co.cc:609-652 | No wake-up is lost: a caller that has its verdict can continue, and then returns what the verdict says and frees its record. |
| ChannelTheorems.WaiterSettlesOnce | src/co/co.cc:541-547 | Between any two moments of a run: a waiter leaves the waiting state at most once, its verdict is given once, its record is never allocated again, and its result stays. |
| ChannelTheorems.TimedOutIsNeverServed | src/co/sched.cc:287-295 | A waiter that timed out is never given or relieved of a value and never woken, in any continuation of any run. |
| ChannelCalls.OpenCallsWait | src/co/co.cc:595-609 | In every run, while the channel is open: a call of `read` or `write` fails only if its time limit ended its wait, and one that has not returned has a record, is not told that the channel is closed, and stands in the queue if it has no verdict. |
| ChannelCalls.TimeoutEndsWait | src/co/co.cc:641-657 | A time limit that wins in any run ends the wait: the call fails without a verdict, and its thread is not blocked. |
| ChannelCalls.ServedInTurn | src/co/co.cc:541-544 | First come, first served: of two callers in the queue, the later one leaves it only after the earlier one, whatever happens in between in any run. |
| ChannelCalls.CopiedOrMoved | src/co/co.cc:718-730 | In every run, a writer whose value is to be copied keeps its object; one whose value is to be moved has it moved out if the write succeeds, and keeps it if the write fails without waiting. |
| ChannelCalls.StackObjectUntouched | src/co/co.cc:472-483 | In every run, an object on the stack of a waiting coroutine is not touched before the coroutine continues, except that a value to be moved leaves it when its writer begins to wait. |
| ChannelTheorems.ClosedHasNoWaitingReader | src/co/co.cc:786-804 | In every run, once `close` has completed no reader is queued: each has returned, or has a verdict and was woken to take it. |
| ChannelTheorems.ClosedRefusesWrites | src/co/co.cc:668-674 | In every run, a call begun after `close` has begun never waits; if it is a write it fails, leaves its object alone, and its value never enters the channel. |
| ChannelTheorems.ClosedReadDelivers | src/co/co.cc:528-599 | One read of a closed channel takes the next of the buffered values and of the writers that still wait, and fails exactly if there are none. |
| ChannelTheorems.ClosedChannelDelivers | src/co/co.cc:524-809 | In every run and every interleaving after `close` has begun: the values received since, followed by what can still be received, are the values buffered at that moment and then those of the writers waiting at that moment that did not time out, in order. |
| ChannelTheorems.ClosedReadFailsLast | src/co/co.cc:595-599 | In every run, a read begun after `close` succeeds, with the first value of the backlog, exactly if there is one; after one that failed, nothing is ever received again. |
| ChannelTheorems.ClosedChannelDrains | src/co/co.cc:528-599 | From every state of a closed channel, reads that follow each other can happen, deliver the whole backlog in order and only then fail. |
| Pipes.PipeImpl.constructor | src/co/co.cc:421-440 | A new ring, of any size, is an empty channel. |
| Pipes.PipeImpl.ReadBlock | src/co/co.cc:510-516 | Takes the first of the queued elements out of the ring, whatever the position of the ring. |
| Pipes.PipeImpl.WriteBlock | src/co/co.cc:518-522 | Adds an element to the ring in a place that holds no object. |
| Pipes.PipeImpl.Read | src/co/co.cc:524-605 | The critical section of `read` over `_rx`, `_wx` and `_full`, the wake-up of the writer it accepts included, does exactly what the specified step does to the abstract channel, which `ChannelCalls.OpenCallsWait` says waits if the open channel is empty; without a buffer, what `DirectRead` says. |
| Pipes.PipeImpl.Write | src/co/co.cc:668-748 | The same for `write` and the reader it serves. |
| Pipes.PipeImpl.Resume | src/co/co.cc:611-658 | The same for the continuation of a coroutine that waited, whose assertion about the verdict holds. |
| Pipes.PipeImpl.Awake | src/co/co.cc:635-652 | The same for one round of the loop of a thread that waits: it filters wake-ups without a verdict. |
| Pipes.PipeImpl.TimeOut | src/co/co.cc:642-657 | The same for a timeout. |
| Pipes.PipeImpl.CloseFirst | src/co/co.cc:781-784 | The same for the first half of `close`. |
| Pipes.PipeImpl.CloseLocked | src/co/co.cc:785-804 | The same for the second half of `close`, which wakes every reader it pops. |
| Pipes.PipeImplCap.constructor | src/co/co.cc:847-862 | A new list-based channel is an empty channel; capacity 0 means no bound. |
| Pipes.PipeImplCap.Read | src/co/co.cc:956-1021 | The `read` over the linked list of elements, the wake-up included, does exactly what the same specified step does, waiting on an open empty channel included. |
| Pipes.PipeImplCap.Write | src/co/co.cc:1084-1168 | The same for the `write` over the linked list. |
| Pipes.PipeImplCap.Resume | src/co/co.cc:1027-1044 | The same for the continuation of a coroutine. |
| Pipes.PipeImplCap.Awake | src/co/co.cc:1051-1072 | The same for one round of the loop of a thread that waits. |
| Pipes.PipeImplCap.TimeOut | src/co/co.cc:1055-1075 | The same for a timeout. |
| Pipes.PipeImplCap.CloseFirst | src/co/co.cc:1201-1204 | The same for the first half of `close`. |
| Pipes.PipeImplCap.CloseLocked | src/co/co.cc:1205-1225 | The same for the second half of `close`, which wakes every reader it pops. |
| Unbuffered.DirectReadSoundIff | src/co/co.cc:566-593 | Without a buffer, a read leaves everything sound if and only if everyone in the queue has timed out, and none of them is a reader whose object its record wants destroyed; and then every call is as it should be again. |
| Unbuffered.DirectWriteSoundIff | src/co/co.cc:684-716 | Without a buffer, a write leaves everything sound if and only if it is refused, or the first in the queue that has not timed out, if any, is a reader and no record before it holds the value of a writer; and then the value was handed over, or the writer waits. |
| Unbuffered.DirectRunSoundIff | src/co/co.cc:524-809 | Every run of a channel without a buffer, timeouts, wake-ups and closing included, is sound if and only if each of its reads and writes goes well with the queue it finds; and then the values accepted are those received, in order. |
| Unbuffered.DirectOpenCallsWait | src/co/co.cc:566-609 | In every sound run of a channel without a buffer, while it is open: a call fails only if its time limit ended its wait, and one that has not returned has a record, and stands in the queue if it has no verdict. |
| Unbuffered.TwoCallsSoundIff | src/co/co.cc:566-593 | Whatever the two calls are, on a new channel without a buffer only a read followed by a write is sound. |
| Unbuffered.CloseLeavesWaiting | src/co/co.cc:781-804 | In every sound run, a caller that waits when `close` begins on a channel without a buffer never gets a verdict and is never woken; unless its time limit ends its wait it stays queued. |
| Mutex.StepKeepsInv | src/co/co.cc:146-202 | Every lock, failed or successful try, unlock and wake-up keeps the invariant. |
| Mutex.MutualExclusion | src/co/co.cc:146-202 | In every run, spurious wake-ups included: at most one party owns the mutex, and one does exactly if `_lock` is 1; `_lock == 0` only with nobody waiting; blocked threads are the null tokens queued, plus one if `_lock` is 2. That the owners are those who were told so is `Mutex.OneHolder`. |
| Mutex.OneHolder | src/co/co.cc:146-202 | The same as the callers see it, from the answers alone: in every run at most one party whose `lock` or `try_lock` succeeded, or that was resumed or woken with the mutex, has not called `unlock` since; a call of `lock` that has not returned is queued or blocked; and a call gets the mutex at once exactly if nobody holds it and nobody waits. |
| Mutex.HandsOver | src/co/co.cc:184-202 | After an unlock the owners are exactly the coroutine that is resumed, or nobody, and never the party that unlocked. |
| Mutex.ServedInTurn | src/co/co.cc:184-202 | A queued coroutine moves up one place with each unlock, whatever else happens, and the unlock that finds it in front makes it the owner. |
| Mutex.MutexImpl.Lock | src/co/co.cc:151-182 | `lock` does exactly what the specified step does, and answers true exactly if the caller, who did not own the mutex, owns it then. |
| Mutex.MutexImpl.TryLock | src/co/co.cc:146-149 | The same for `try_lock`. |
| Mutex.MutexImpl.Unlock | src/co/co.cc:184-202 | The same for `unlock`: with waiters, ownership passes on instead of being dropped, and the coroutine returned to be resumed owns the mutex and the caller does not. |
| Mutex.MutexImpl.Wake | src/co/co.cc:173-179 | The same for a thread that wakes up, for whatever reason: it leaves its loop exactly if it owns the mutex then. |
| BlockQueue.Queue.PushBack | src/co/co.cc:97-105 | Adds at the back of the queue, in a new block of the linked list if the last one is full. |
| BlockQueue.Queue.PopFront | src/co/co.cc:107-123 | Takes the front of the queue, resetting a block read to its end and dropping it from the linked list unless it is the last; returns nothing exactly if the queue is empty. |
| CList.List.PushFront | include/co/clist.h:20-31 | Puts a node before the sequence. |
| CList.List.PushBack | include/co/clist.h:33-44 | Puts a node after the sequence. |
| CList.List.PopFront | include/co/clist.h:46-53 | Removes and returns the first node. |
| CList.List.PopBack | include/co/clist.h:55-59 | Removes and returns the last node. |
| CList.List.Clear | include/co/clist.h:18 | Leaves the empty sequence. |
| CList.List.Erase | include/co/clist.h:61-70 | Removes the node, wherever it stands. |
| CList.List.MoveFront | include/co/clist.h:72-83 | Moves the node to the front, the last one included. |
| CList.List.MoveBack | include/co/clist.h:85-100 | Moves the node to the back, the first one included. |
| CList.List.Swap | include/co/clist.h:102-106 | Two lists exchange all their nodes. |
| CList.LinksDetermineNodes | include/co/clist.h:10-112 | The head and the `next` links alone determine the sequence. |
| JsonLexer.SkipWhiteSpace | src/json.cc:188-254 | The unrolled macro stops at the first byte that is not white space, and never passes the end. |
| JsonLexer.ParseKey | src/json.cc:157-162 | A key is what stands raw between two quotes. |
| JsonLexer.TwentyDecides | src/json.cc:600-610 | For a number of 20 characters the byte comparison with the limit tells whether its value lies between the least 64-bit signed and the greatest 64-bit unsigned integer. |
| JsonLexer.LengthDecides | src/json.cc:598-602 | A shorter integer always lies in that range and a longer one never does. |
| JsonLexer.ReadInteger | src/json.cc:597-622 | An integer is read, as its value modulo 2 to the 64 taken as signed, exactly if that value lies between the least 64-bit and the largest unsigned 64-bit number. |
| JsonLexer.Str2Int | src/json.cc:549-555 | Accumulating digits with wrap-around gives the value modulo 2 to the 64, read as a signed integer. |
| JsonLexer.ScanNumber | src/json.cc:565-595 | The scanner accepts exactly the numbers of section 6 of RFC 8259, and tells whether there is a fraction or an exponent. |
| JsonLexer.ParseNumber | src/json.cc:565-629 | A number becomes an integer exactly if it has neither fraction nor exponent and lies in that range, and a double otherwise. |
| JsonLexer.ParseUnicode | src/json.cc:487-547 | Four hex digits, or a surrogate pair, become the bytes from which the bit patterns of UTF-8 give back the code point; everything else is refused. |
| JsonUtf8.Utf8Iff | src/json.cc:528-546 | A decoder written from the ranges of the leading and following bytes, which insists on the shortest form, gives a code point up to 0x10FFFF for exactly one byte sequence: the one written. |
| JsonLexer.ParseString | src/json.cc:448-485 | Jumping between quotes and backslashes reads exactly the string that reading character by character gives, which `JsonRfcTheorems.CharsRead` says is what the characters stand for. |
| JsonParser.Parser.Begin | src/json.cc:283-288 | Opening a container saves size and state and starts an empty node. |
| JsonParser.Parser.CloseContainer | src/json.cc:379-398 | Closing one gathers exactly its own items and restores what the enclosing container had read. |
| JsonParser.Parser.Recover | src/json.cc:426-445 | From every place where an error can occur, both stacks end empty, and the tree that is returned holds every node and key allocated so far exactly once. |
| JsonNodes.CollapseHolds | src/json.cc:426-445 | Folding the open containers into each other, with the keys that wait for a value, keeps every node and key exactly once. |
| JsonParser.Parser.Run | src/json.cc:277-445 | The machine with its gotos reads one value exactly as the recursive grammar does, and ends with both stacks empty. |
| JsonParser.Parse | src/json.cc:263-445 | Accepts exactly the texts that the relaxed grammar of RFC 8259 derives and that can be read, and builds the tree that the derivation means; on success and on every error both stacks end empty, and the tree returned holds each node and key ever allocated exactly once. |
| JsonRfcTheorems.CharsRead | src/json.cc:448-547 | A string is read exactly if its high surrogates are followed by low ones, and as what its characters stand for: escapes by the table of section 7 of RFC 8259, `\u` by the value of its hexadecimal digits, and a pair of surrogates by its code point. |
| JsonRfcTheorems.NumReads | src/json.cc:565-629 | A number is read exactly if it is an integer of 64 bits or does not overflow as a double, and as what its digits count at their places, wrapped around if it is too large for a signed integer. |
| JsonRfcTheorems.AcceptedIff | src/json.cc:263-445 | A text is read as a tree if and only if it is derived by RFC 8259, with a comma allowed after the last item, any key without a quote in it and control characters allowed in strings, its numbers fit, its surrogates are paired, and the tree is what the derivation means. |
| JsonRfcTheorems.RfcTextAcceptedIff | src/json.cc:263-445 | A text of RFC 8259 none of whose keys has a quote in it is accepted if and only if its numbers fit and its surrogates are paired, and is then read as what it means, with its keys as they stand. |
| JsonRfcTheorems.RfcMeaningReadIff | src/json.cc:157-162 | Such a text is read as what the standard says it means, keys included, if and only if its numbers fit, its surrogates are paired, and no key has an escape. |
| JsonRfcTheorems.QuoteInKeyRefused | src/json.cc:157-162 | The condition on keys is needed: a text of RFC 8259 whose key is an escaped quote is refused. |
| JsonPrinter.FindEscape | src/json.cc:639-709 | The unrolled scan finds the first character that needs an escape. |
| JsonPrinter.PrintString | src/json.cc:715-732 | A string is printed between quotes with every such character escaped. |
| JsonPrinter.Json2Str | src/json.cc:711-771 | The compact printer, which overwrites a trailing comma by the closing bracket, prints the compact text of the tree. |
| JsonPrinter.Json2Pretty | src/json.cc:775-819 | The same for the indenting printer, for every indentation. |
| JsonRoundTrip.UnescapeInverts | src/json.cc:462-466 | Unescaping inverts escaping, quote and backslash are escaped, and no escape code is `u`. |
| JsonRoundTrip.ParseInvertsPrint | src/json.cc:711-819 | The text that either printer makes of a tree without doubles whose keys hold no quote and no NUL is read back as the same tree. |
| JsonRoundTrip.RoundTripIffPlainKeys | src/json.cc:711-819 | For trees without doubles the condition on the keys is exact: the text is read back as the same tree if and only if it holds. |
| SharedStacks.Sched.Append | src/co/sched.h:93-114 | Appending to a saved buffer keeps what it holds, and tells exactly when the bytes lie inside the block, 32-bit wrap-around of its capacity included. |
| SharedStacks.AppendFitsIff | src/co/sched.h:93-114 | The bytes appended lie inside the block if and only if they fit without growing, or the new capacity does not wrap around, or it wraps around to one that is large enough. |
| SharedStacks.StackSizeIsSafeIff | src/co/sched.h:103-106 | Saving stacks stays inside the block, whatever was saved in it before, if and only if the stack size is at most 1717986915 bytes. |
| SharedStacks.LargerStackOverruns | src/co/sched.h:103-106 | After 1717986915 bytes were saved in a block, saving one byte more asks for a block without any room. |
| SharedStacks.Sched.SaveStack | src/co/sched.h:415-423 | The bytes of the owner of a stack end up in its own buffer, the last one of the free list if it has none, and no other record changes. |
| SharedStacks.HandOver | src/co/sched.cc:118-148 | Giving a stack to another coroutine disturbs nobody if the bytes of the previous owner were saved. |
| SharedStacks.YieldKeeps | src/co/sched.cc:152-156 | After a yield the bytes above the new stack pointer are what the coroutine left. |
| SharedStacks.RecycleKeeps | src/co/sched.h:439-452 | The buffer of a coroutine that ended is freed or goes to the free list, and never belongs to both. |
| SharedStacks.Sched.NewCoroutine | src/co/sched.h:426-437 | A record from the pool, new or used before, makes a new coroutine that has not run. |
| SharedStacks.Sched.Recycle | src/co/sched.h:439-452 | A buffer of more than 8192 bytes, or one too many for the 128 places of the free list, is freed, and every other one is added to the list; the coroutine has none afterwards. |
| SharedStacks.Sched.Load | src/co/sched.cc:106-151 | The stack of the coroutine holds its bytes again, at the same addresses. |
| SharedStacks.Sched.Resume | src/co/sched.cc:106-163 | The coroutine finds exactly what it left, and every other coroutine keeps what it left; each saved buffer belongs to one coroutine or once to the free list, and none is lost. |
| SharedStacks.Run | src/co/sched.cc:172-270 | In every run of starts and resumes, over any number of coroutines and stacks and every stack size that is safe, each resumed coroutine finds the bytes it left at its last yield. |
| CoroutinePool.FallbackBlock | src/co/sched.h:174 | With no block known to be free, the block after the current one is unused if and only if the current block is the highest one ever used. |
| CoroutinePool.PopKeepsInv | src/co/sched.h:163-202 | A pop that does not fall back from below the highest block returns an index that is not in use, in a block with memory, and keeps the counts and the free blocks right. |
| CoroutinePool.PushKeepsInv | src/co/sched.h:204-234 | A push keeps them right, too, when it frees a block and when the current block moves down. |
| CoroutinePool.RunKeepsInv | src/co/sched.h:163-234 | On every run of such pops, and of pushes of indices in use other than 0, each count is the number of indices in use in its block, the free blocks are empty, and the number of indices in use is the number of pops less that of pushes. |
| CoroutinePool.UsedBeforeNew | src/co/sched.h:163-192 | In every such run, a pop takes a record that was never used only if every one handed out before, of block 0 and of the current block, is in use. |
| CoroutinePool.GivenBackIsNext | src/co/sched.h:204-212 | In every such run, an index of block 0 that is given back is the next one to be handed out. |
| CoroutinePool.FallbackCollidesIff | src/co/sched.h:174 | At a fallback, one of the next 4096 pops returns an index in use if and only if the current block is not the highest one ever used. |
| CoroutinePool.FallbackCanCollide | src/co/sched.h:174 | A concrete run of allowed operations reaches such a fallback: fill three blocks, empty the middle one, fill it again. |
| CoroutinePool.PoolImpl.NewCo | src/co/sched.h:178-192 | Takes the first unused record of the current block, growing the block table if needed. |
| CoroutinePool.PoolImpl.Pop | src/co/sched.h:163-202 | `pop` is the step that the lemmas are about. |
| CoroutinePool.PoolImpl.Push | src/co/sched.h:204-234 | `push` is the step that the lemmas are about. |
| PooledStacks.PoolKeepsStacksProper | src/co/sched.h:426-452 | In every run in which the pool falls back only from the highest block, each coroutine is created with an index no other has, and the coroutines that exist are those whose index is in use. |
| PooledStacks.NewRecordIsUntouched | src/co/sched.h:178-202 | The record of a new coroutine is as its allocation zeroed it if and only if the pool takes a new one; otherwise it was used before. |
| PooledStacks.RunPooled | src/co/sched.cc:106-163 | The pool and the stacks run together: whatever coroutines are created, run and end, each one that runs finds the bytes it left at its last yield. |
| Timer.TimerManager.Add | src/co/sched.h:290-292 | A new deadline is put in order, the cached iterator names it, and every stored iterator stays valid. |
| Timer.TimerManager.AddFor | src/co/sched.h:359-361 | The coroutine remembers its new entry, and everything stored stays valid. |
| Timer.TimerManager.Remove | src/co/sched.cc:131-136 | Removing the timer of a resumed coroutine erases exactly its entry and leaves the cached iterator and all stored ones valid. |
| Timer.TimerManager.Delete | src/co/sched.h:294-297 | The cached iterator moves on if it names the erased entry. |
| Timer.ExpiredAreFirst | src/co/sched.cc:279-282 | The expired entries are those before the first one with a later deadline. |
| Timer.FireIsUnclaimed | src/co/sched.cc:283-295 | Exactly the entries whose wait was not claimed by an event, or by an earlier entry, are reported, in the order of their deadlines, and their waits are marked as timed out. |
| Timer.FiredOnce | src/co/sched.cc:283-295 | However many of its entries have expired: a coroutine that waits for an event is reported once if nobody has claimed its wait and never if somebody has, and one that waits for nothing else at each entry. |
| Timer.TimerManager.CheckTimeout | src/co/sched.cc:275-304 | Removes exactly the expired entries, clears the stored iterators of their coroutines and no others, keeps the cached iterator valid, and returns a wait that fits 32 bits. |
| SchedLoop.ResumeKeeps | src/co/sched.cc:106-150 | Resuming a coroutine whose wait has ended keeps every list and timer right, its own timer being removed if it is still set. |
| SchedLoop.CheckTimeoutKeeps | src/co/sched.cc:254-266 | Taking the expired timers keeps lists and timers right; whom it reports is `SchedLoop.ExpiredEndsWait`. |
| SchedLoop.StepKeepsInv | src/co/sched.cc:172-270 | Every step of the loop, of the running coroutine and of other parties keeps the invariant. |
| SchedLoop.RunKeepsInv | src/co/sched.cc:172-270 | Hence it holds throughout every run. |
| SchedLoop.ResumedOncePerWait | src/co/sched.cc:172-270 | In every run only waiting coroutines are resumed, by I/O events too, the waits begun are the resumptions plus the waits still open, and a resumed coroutine finds the timeout flag set exactly if its time limit ended the wait. |
| SchedLoop.EndedIsListedOnce | src/co/sched.cc:222-266 | No wake-up is lost or doubled: a coroutine whose wait has ended stands exactly once in the lists to resume, every other one in none. What ends a wait is `SchedLoop.ExpiredEndsWait` and `SchedLoop.EventsEndWaits`. |
| SchedLoop.ExpiredEndsWait | src/co/sched.cc:275-304 | In every run, each coroutine among the first timers that have expired whose wait is open, for whatever it waits, has timed out and is to be resumed; no other wait changes, and the later timers stay. |
| SchedLoop.OpenWaitKeepsTimer | src/co/sched.h:359-361 | In every run, a coroutine whose wait is open, and that has called `add_timer` since it began, has its timer. |
| SchedLoop.EventsEndWaits | src/co/sched.cc:184-250 | In every run, a party that claims a waiting coroutine ends its wait and lists it, an I/O event resumes its coroutine at once and removes its timer, and what is listed is taken whole and in order. |
| SchedLoop.EventsPassControl | src/co/sched.cc:106-163 | In every run, a coroutine that begins to wait has an open wait, and one that yields or ends gives the control back and leaves everything else as it is. |
| SchedLoop.ResumedInTurn | src/co/sched.cc:222-266 | In every run, the coroutine at place `k` of those to resume is the next one after `k` resumptions, whatever happens in between, and then it runs and waits no more. |
| SchedLoop.PhaseOrderMatters | src/co/sched.cc:184-266 | The order of the phases is needed, in every run: an I/O event handled among the timed-out coroutines misleads its coroutine about a timeout at once, or leaves it listed though it was resumed, so that it is resumed once more out of nothing or out of its next wait. |
| Sha256Rounds.ChForms | src/hash/sha256.cc:33 | The choice macro with three operations is the choice function of section 4.1.2 of FIPS 180-4. |
| Sha256Rounds.MajForms | src/hash/sha256.cc:34 | The majority macro is the majority function. |
| Sha256Rounds.Renamed | src/hash/sha256.cc:36-48 | Writing two of the eight slots is a whole round: the other registers only change their names. |
| Sha256Rounds.NextWord | src/hash/sha256.cc:30-31 | The word read or added up in the ring of 16 is the next one of the schedule of 64. |
| Sha256Rounds.OneRound | src/hash/sha256.cc:45-48 | The round macro does one round of section 6.2.2. |
| Sha256Rounds.Transform | src/hash/sha256.cc:70-80 | The block function is that of section 6.2.2 of FIPS 180-4, with the constants that `Sha256Constants.KFromPrimes` characterises. |
| Sha256Constants.KFromPrimes | src/hash/sha256.cc:60-68 | Each of the 64 constants is the first 32 bits of the fractional part of the cube root of the prime with as many primes below it as its index says. |
| Sha256Constants.InitFromPrimes | src/hash/sha256.cc:11-18 | Each word of the initial hash value is the first 32 bits of the fractional part of the square root of one of the first eight primes, in order. |
| HashBlocks.FewestZeros | src/hash/sha256.cc:116-121 | The padding uses the fewest zero bytes that leave room for the length. |
| HashBlocks.TopByte | src/hash/sha256.cc:122-125 | Shifting a number left by whole bytes brings the matching byte to the top. |
| WordBytes.BytesKeepNumber | src/hash/sha256.cc:122-125 | The bytes written for a number, read as a number, are that number modulo 256 to the number of bytes. |
| Sha256.WordsAreBytes | src/hash/sha256.cc:87-95 | A word is read from four bytes as the number they make up, the most significant first, and written as the bytes of its number. |
| Sha256.Context.WriteByteBlock | src/hash/sha256.cc:87-95 | A full buffer is read as 16 words and goes through the block function. |
| Sha256.Context.Update | src/hash/sha256.cc:97-109 | The context stands for the message so far followed by the new bytes. |
| Sha256.Context.Final | src/hash/sha256.cc:111-134 | The result is the hash of the padded message of section 5.1.1, with its length in bits modulo 2 to the 64. |
| Sha256.HashOf | include/co/hash/sha256.h:21-26 | The hash of a message that comes in pieces is that of the whole message, however it is split; `Sha256Answer.DigestOfAbc` is one of its values. |
| Sha256Answer.DigestOfAbc | src/hash/sha256.cc:60-134 | The digest of "abc", worked out round by round, is the one that appendix B.1 of FIPS 180-2 gives. |
| Md5.CountersAdd | src/hash/md5.cc:212-216 | The 29-bit and 32-bit counters together count the bytes modulo 2 to the 61, for pieces of any size. |
| Md5.LengthBytes | src/hash/md5.cc:259-267 | The eight bytes written from the two counters are the length in bits modulo 2 to the 64, least significant byte first. |
| Md5Rounds.FForms | src/hash/md5.cc:50 | The form of F with three operations is that of section 3.4 of RFC 1321. |
| Md5Rounds.GForms | src/hash/md5.cc:51 | The form of G is that of section 3.4. |
| Md5Rounds.HForms | src/hash/md5.cc:52-53 | Both forms of H are that of section 3.4. |
| Md5Rounds.StepForms | src/hash/md5.cc:59-62 | The step macro, with its mask and its order of additions, is the operation of section 3.4. |
| Md5Rounds.StepIs | src/hash/md5.cc:106-109 | One macro call is one step; the registers change their roles instead of moving. |
| Md5Rounds.Transform | src/hash/md5.cc:99-183 | The 64 steps as they are written out, and the four additions, are section 3.4 of RFC 1321. |
| Md5Rounds.WordsAreBytes | src/hash/md5.cc:73-82 | A word is read from four bytes as the number they make up, the least significant first. |
| Md5.Context.Body | src/hash/md5.cc:87-188 | One block after the other goes through the block function of section 3.4 of RFC 1321. |
| Md5.Context.Update | src/hash/md5.cc:208-240 | The context stands for the message so far followed by the new bytes, whether or not they pass through the buffer. |
| Md5.Context.Final | src/hash/md5.cc:242-289 | The digest is that of the padded message of sections 3.1 and 3.2 of RFC 1321. |
| Md5.DigestOf | include/co/hash/md5.h:41-46 | The digest of a message that comes in pieces is that of the whole message, however it is split. |
| Md5Answer.DigestOfAbc | src/hash/md5.cc:87-289 | The digest of "abc", worked out step by step with all 64 entries of the table of sines, is the one that appendix A.5 of RFC 1321 gives. |

## Left out

- MaximalSuffix.FindMaxSuffix: the bound of two steps per byte is proved for each of the two passes; the comment at src/two_way.h:87 gives it without saying for which.
- SharedStacks.Run: needs a safe stack size, as `SharedStacks.StackSizeIsSafeIff` explains.
- PooledStacks.RunPooled: needs that the pool falls back only from its highest block, as `CoroutinePool.FallbackCollidesIff` explains.
- CoroutinePool.PoolImpl.Pop: does not model the contents of the records, whose `ctx` field is part of SharedStacks.
- Timer.TimerManager.Add: where the map puts an entry among equal keys is left open, as the hint of `emplace_hint` only makes it faster.
- Sha256.Context.Update: does not model the hexadecimal form that `sha256sum` prints.
- JsonLexer.ParseNumber: the value of a double is not modelled; it is kept as text, and `fits` stands for `strtod` not overflowing.
- JsonPrinter.Json2Str: the debug form, which truncates long strings, and the printing of doubles with a limited number of digits are not modelled.
- Pipes.PipeImpl.Read: counts elements instead of bytes, and keeps the wait queue in a sequence.
- Pipes.PipeImpl.Write: the same.
- Pipes.PipeImplCap.Read: keeps the wait queue in a sequence; the elements are in the linked list.
- Pipes.PipeImplCap.Write: the same.
- SchedLoop.ResumedOncePerWait: the lists of new tasks, the shrinking of the vectors, the accounting of processor time and closing a socket while a coroutine waits for it are not modelled.
- `str::memimem` and the case-insensitive instance of the search: it factors the needle by the case-sensitive order, so the theorem does not carry over.
- `event_impl`, `sync_event_impl`, `wait_group` and `pool_impl`: easier members of the same file, the first with a reuse of timed-out records that would need side conditions.
- The destructors of the channels, sockets, polling, files, time, logging, flags and the Windows branches: foreign calls, or nothing to prove about a run.
- Memory order: each critical section and each compare-and-swap is one atomic step.
- Context switching itself: a running coroutine is an arbitrary write to its stack.
- Coroutines that end while a timer of theirs is still set.
