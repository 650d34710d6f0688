# Verified models of the algorithms behind Any_competition

Any_competition is an iOS app for round-robin competitions. Beside its screens and its
store the repository carries the app's own table of matches and, among its vendored
sources, several complete algorithms. This project models these and proves what they are
for. `dafny verify dfyconfig.toml` checks all of it with Dafny 4.11.

## What is modelled

**libuv's thread pool** (`threadpool*.dfy`). `ThreadPool` has the state under the mutex and
the critical sections of `post` and `worker`, as a class and as functions on the state.
`ThreadPoolSteps` makes a state machine of it: workers that enter their critical section,
run a request and publish it, posters, a canceller on the thread of each event loop, and
the loops that take over finished requests and make the done calls. The condition variable
is a set of waiting and a set of signalled workers; spurious wakeups are steps. Over every
run: each request is in exactly one place, gets at most one done call whose status tells
its history, slow work is bounded and scheduled, no wakeup is lost, and every schedule
drains the pool. `ThreadPoolOrder` proves that the queues are first in, first out: each is, in
every state of every run, what is left of the requests in the order in which they entered.
`ThreadPoolShutdown` says what becomes of it once the exit message is
posted: all workers leave, and the slow requests that are still pending are left behind, but
perhaps for the first. `ThreadPoolStranded` has the exact condition for that one: it runs
under every schedule if and only if fewer slow requests are running than may, or there is
only one worker. So a request that was submitted does not always get its done call, as
`FullPool` shows by a run. A second cancel of a request that is already cancelled, before its done
call, succeeds again; `CancelSucceedsExactly` says so.

**libuv's queues** (`queue.dfy`). Circular lists of nodes with two pointers. Every macro is
a method on the nodes, specified by the sequence that the ring stands for; `uv_walk` is
built from them.

**libuv's IDNA encoder** (`utf8.dfy`, `bit_numbers.dfy`, `punycode.dfy`,
`punycode_roundtrip.dfy`, `punycode_samples.dfy`, `idna.dfy`, `host_name.dfy`).
`Punycode` states sections 5, 6.1, 6.2 and 6.3 of RFC 3492 over unbounded integers,
decoder included, and `PunycodeSamples` has samples of section 7.1. `Idna` has the C code in
32-bit arithmetic with its output buffer, and proves it equal to that unbounded computation unless it returns `UV_E2BIG`, which it does
when a delta does not fit. It returns the length of an ASCII label as an int, so that a
label of 2^31 or more characters fails the whole call: `LabelPasses` has the exact
condition, `LongLabels` the inputs. `Utf8` has the decoder in front of it, on bits. Its check
on the top bits of the following bytes is made on their exclusive or, so that it also takes
sequences that are not UTF-8; `CanonicalExactly` says when. `HostName` has the loop over the
bytes of a name, with the bytes behind it, which the code reads if the name ends in the middle
of a code point. The text alone does not tell an ASCII label that is spelt like an encoding
from the label so encoded; `SameHostName` says exactly which names share their text.

**libuv's timers** (`heap.dfy`, `timer.dfy`). The heap is linked by left, right and parent
pointers and navigated by the bits of its node count; a ghost sequence gives its nodes by
level. Insertion and removal are proved for every strict weak order. On top of it are the
timers of `timer.c`, with 64-bit deadlines and start ids. `uv__run_timers` terminates
unless time stands at 2^64 - 1 and an active timer repeats; `NeverEnds` shows that it does
not end then.

**libuv's address printer and parser** (`inet_text.dfy`, `inet_grammar.dfy`, `inet.dfy`).
`InetText` states the texts and what parsing them yields, `InetGrammar` a grammar of the texts
that are accepted, and `Inet` has the C functions with their buffers. A run
of seven zero words never takes the embedded form, although the code tests for it: such a
run is skipped before the test (`inet.c:119-124`). `inet_ntop6` with a buffer of size 0
reports success and writes nothing, where `inet_ntop4` reports `UV_ENOSPC`.

**LevelDB's DBIter** (`dbformat.dfy`, `db_iter.dfy`). `DbFormat` has the internal keys as
bytes and their order. `DbIter` has the iterator over a sorted run of entries and proves
that it walks the map visible at a snapshot, in both directions and with every change of
direction. The comment at `db_iter.cc:41-46` places a reversed iterator just before all
entries with its key; entries too new for the snapshot may lie between, and the invariant
`Consistent` allows them. The early exit of `Next` after a change of direction
(`db_iter.cc:154-158`) never happens.

**The round-robin table** (`match.dfy`, `competition_table.dfy`). Matches are values, as
Swift structs are; the table is a class. The counter is right only along moves that finish
an undone match of two different players, and with a single player the finished flag is
never set although nothing is left to play: both are proved as exact conditions.

**nanopb** (`nanopb_*.dfy`). A schema is a finite tree of fields and a message one slot of
values a field. `NanopbMessage` says which bytes a message has, `NanopbReading` what bytes
decode to, `NanopbFields` and `NanopbRoundTrip` that the second undoes the first, with unknown
fields in every gap and at every depth, and `NanopbBounds` that whatever is decoded is in
bounds and can be encoded again. `NanopbBytes` fixes the bytes themselves, without the
functions that encoder and decoder share, and `NanopbSample` those of a message.
`NanopbEvolution` proves that a decoder whose schema lacks fields, at any depth, reads exactly
the others. `NanopbMerge` proves what the header promises of `pb_decode_noinit`, that it
merges. Two messages one behind the other are also merged, but not by a schema with exactly
one fixed-count array, whose second occurrence is taken for more entries of the first:
`ConcatenationMerges` has the exact condition. The 32-bit varint decoder takes more than
32-bit numbers and sign-extended ones; `Varint32Accepts` says exactly what. `NanopbEncode` and
`NanopbDecode` have the C functions on streams over buffers: encoding with its sizing pass,
decoding with substreams, packed and fixed-count arrays, oneofs and the bitmap of required
fields. `NanopbIter` has the cyclic field iterator with its data pointers. In a message
without fields, field number 0 finds the terminator of the descriptors and is read like a
bool; the model keeps this.

## Model

| member | source | states |
|---|---|---|
| ThreadPool.Pool.PostMessage | Any_competition/Pods/Libuv-gRPC/src/threadpool.c:142-160 | appends to the tail of wq, or to the tail of slow_io_pending_wq with at most one slow-work message in wq, and signals a sleeper if there is one |
| ThreadPool.Pool.WorkerSection | Any_competition/Pods/Libuv-gRPC/src/threadpool.c:57-117 | a worker with the mutex: waits, requeues or drops the slow-work message, passes an exit message on, or leaves with one request; equal to the function Decide on the shared state |
| ThreadPool.Pool.TakePending | Any_competition/Pods/Libuv-gRPC/src/threadpool.c:103-117 | takes the first slow request and puts the slow-work message back if there are more |
| ThreadPool.Pool.CondSignal | Any_competition/Pods/Libuv-gRPC/src/threadpool.c:153-157 | one waiting worker becomes woken, if any waits |
| ThreadPoolWorkers.EnqueueKeeps | Any_competition/Pods/Libuv-gRPC/src/threadpool.c:152-157 | a new entry is paid for by waking a sleeper, so uncovered demand does not grow |
| ThreadPoolWorkers.PostKeeps | Any_competition/Pods/Libuv-gRPC/src/threadpool.c:142-160 | post keeps the queue invariants and no lost wakeup |
| ThreadPoolWorkers.DecideKeeps | Any_competition/Pods/Libuv-gRPC/src/threadpool.c:71-117 | a worker section keeps the invariants; it lowers the demand by one or wakes a sleeper for it |
| ThreadPoolWorkers.DecideCovers | Any_competition/Pods/Libuv-gRPC/src/threadpool.c:71-117 | after any worker section, again every actionable entry has its own woken worker while some worker sleeps |
| ThreadPoolWorkers.StepKeepsWorkers | Any_competition/Pods/Libuv-gRPC/src/threadpool.c:57-160 | every step of workers, posters, cancellers and loops keeps thread accounting, the slow-work bound and no lost wakeup |
| ThreadPoolRequests.DecideTakes | Any_competition/Pods/Libuv-gRPC/src/threadpool.c:86-117 | a worker section takes out exactly the request it leaves with |
| ThreadPoolRequests.UnlinkExact | Any_competition/Pods/Libuv-gRPC/src/threadpool.c:269-281 | unlinking in cancel removes the request from wherever it is linked, and only it |
| ThreadPoolRequests.StepKeepsInv | Any_competition/Pods/Libuv-gRPC/src/threadpool.c:57-160 | every step keeps: a request is found at a place if and only if that is its recorded place, and its record fits the place |
| ThreadPoolRequests.RunKeepsInv | Any_competition/Pods/Libuv-gRPC/src/threadpool.c:57-315 | the invariant holds in every state of every run |
| ThreadPoolRequests.ExactlyOnePlace | Any_competition/Pods/Libuv-gRPC/src/threadpool.c:57-315 | in every state of every run a submitted request is in exactly one place, no queue holds it twice, and it has at most one done call |
| ThreadPoolRequests.RecordCountsSteps | Any_competition/Pods/Libuv-gRPC/src/threadpool.c:121-138 | the counters of runs, successful cancels and done calls equal the number of such steps in the run |
| ThreadPoolRequests.DoneCallReportsHistory | Any_competition/Pods/Libuv-gRPC/src/threadpool.c:295-315 | the done call is the first; its status is ECANCELED if and only if a cancel succeeded before, and then the work function never ran, otherwise it ran exactly once before |
| ThreadPoolRequests.NeverRunsCancelled | Any_competition/Pods/Libuv-gRPC/src/threadpool.c:49-51 | no worker ever calls uv__cancelled |
| ThreadPoolRequests.CancelSucceedsExactly | Any_competition/Pods/Libuv-gRPC/src/threadpool.c:269-292 | a cancel before the done call succeeds if and only if the request still waits in a queue of the pool or was cancelled before |
| ThreadPoolRequests.SlowWorkBounded | Any_competition/Pods/Libuv-gRPC/src/threadpool.c:45-47 | slow_io_work_running is the number of workers inside slow requests and at most (nthreads + 1) / 2; pending slow work has the slow-work message in wq exactly once |
| ThreadPoolRequests.NoWorkStranded | Any_competition/Pods/Libuv-gRPC/src/threadpool.c:71-80 | with runnable work and a live worker, some live worker is not sleeping unsignalled |
| ThreadPoolProgress.WorkingStepCloser | Any_competition/Pods/Libuv-gRPC/src/threadpool.c:57-139 | every step that works off requests lowers a measure |
| ThreadPoolProgress.StuckMeansFinished | Any_competition/Pods/Libuv-gRPC/src/threadpool.c:295-315 | in a running pool in which no such step is possible, every request has had its done call |
| ThreadPoolProgress.EveryScheduleDrains | Any_competition/Pods/Libuv-gRPC/src/threadpool.c:57-139 | once nothing is submitted, cancelled, spuriously woken or told to exit any more, every schedule ends, and with all requests finished |
| ThreadPoolShutdown.DecideCloses | Any_competition/Pods/Libuv-gRPC/src/threadpool.c:71-117 | with the exit message queued no worker sleeps, nothing gets in front of it, behind it only the slow-work message comes or goes, and a worker leaves only if nothing is in front |
| ThreadPoolShutdown.EveryScheduleStops | Any_competition/Pods/Libuv-gRPC/src/threadpool.c:71-117 | in a pool that is closing every schedule ends with all workers gone; requests behind the exit message stay queued, all but the first pending slow request stay pending, and all others finish |
| ThreadPoolShutdown.ShutdownStops | Any_competition/Pods/Libuv-gRPC/src/threadpool.c:163-185 | posting the exit message to a running pool leads there with nothing behind the message, so that joining the threads ends |
| ThreadPoolStranded.DecideTakesFirst | Any_competition/Pods/Libuv-gRPC/src/threadpool.c:86-117 | below the threshold a section leaves the slow-work message in front of the exit message or takes the first pending request |
| ThreadPoolStranded.DecideTakesNoSlow | Any_competition/Pods/Libuv-gRPC/src/threadpool.c:86-100 | at the threshold a section takes no slow request, and the message goes to the end of the queue |
| ThreadPoolStranded.FirstPendingRunsExactly | Any_competition/Pods/Libuv-gRPC/src/threadpool.c:71-117 | in a pool that is closing the first pending request runs under every schedule exactly if the slow-work message is in front of the exit message and fewer slow requests run than may or there is one worker; otherwise some schedule strands it |
| ThreadPoolStranded.ShutdownStrandsExactly | Any_competition/Pods/Libuv-gRPC/src/threadpool.c:163-185 | for a running pool that is told to exit: the first pending request runs under every schedule if and only if slow_io_work_running is below (nthreads + 1) / 2 or there is one worker |
| ThreadPoolStranded.FullPool | Any_competition/Pods/Libuv-gRPC/src/threadpool.c:163-185 | a run of two workers and two slow requests to a pool that may strand the second of them |
| ThreadPoolOrder.DecideTakesHeads | Any_competition/Pods/Libuv-gRPC/src/threadpool.c:80-117 | a worker section takes a request from the head of its queue and leaves the others, of both queues, in their order |
| ThreadPoolOrder.QueuesFollowSubmits | Any_competition/Pods/Libuv-gRPC/src/threadpool.c:107-156 | in every state of every run, slow_io_pending_wq is exactly what is left of the slow requests in the order of their submission, and the requests in wq what is left of the others |
| ThreadPoolOrder.FirstInFirstOut | Any_competition/Pods/Libuv-gRPC/src/threadpool.c:107-156 | of two requests that are both slow, or both not, no step gives the one submitted later to a worker while the one submitted earlier waits |
| ThreadPoolOrder.BackFollowsReturns | Any_competition/Pods/Libuv-gRPC/src/threadpool.c:121-138 | what a loop still has to call back is in the order in which requests came back to it |
| ThreadPoolOrder.DoneInOrder | Any_competition/Pods/Libuv-gRPC/src/threadpool.c:303-315 | done calls are made in the order in which requests came back: none while one that came back earlier waits |
| Queue.QueueInit | Any_competition/Pods/Libuv-gRPC/src/queue.h:45-50 | an initialised node is the empty ring |
| Queue.QueueEmptyDecides | Any_competition/Pods/Libuv-gRPC/src/queue.h:39-40 | QUEUE_EMPTY holds of a ring head if and only if the ring is empty, and never of a linked node |
| Queue.RingUnique | Any_competition/Pods/Libuv-gRPC/src/queue.h:36-37 | the pointers determine the sequence of the ring |
| Queue.InsertHead | Any_competition/Pods/Libuv-gRPC/src/queue.h:83-90 | prepends |
| Queue.InsertTail | Any_competition/Pods/Libuv-gRPC/src/queue.h:92-99 | appends |
| Queue.Remove | Any_competition/Pods/Libuv-gRPC/src/queue.h:101-106 | takes exactly that node out; its own pointers stay |
| Queue.Add | Any_competition/Pods/Libuv-gRPC/src/queue.h:52-59 | concatenates two disjoint rings |
| Queue.Split | Any_competition/Pods/Libuv-gRPC/src/queue.h:61-70 | splits the sequence at a node |
| Queue.Move | Any_competition/Pods/Libuv-gRPC/src/queue.h:72-81 | moves everything to another head, also nothing |
| Queue.MoveHead | Any_competition/Pods/Libuv-gRPC/src/uv-common.c:462-468 | takes the first node off one ring and appends it to another |
| Queue.VisitedExactly | Any_competition/Pods/Libuv-gRPC/src/uv-common.c:466-470 | the handles called are those that are not internal, each once |
| Queue.VisitedInOrder | Any_competition/Pods/Libuv-gRPC/src/uv-common.c:466-470 | of two handles that are not internal, the one that comes first in the list is called first |
| Queue.Walk | Any_competition/Pods/Libuv-gRPC/src/uv-common.c:456-472 | uv_walk calls the non-internal handles in order and leaves the queue as it was |
| Utf8.Decode1Inverse | Any_competition/Pods/Libuv-gRPC/src/idna.c:24-97 | uv__utf8_decode1 reads back every Unicode scalar value from its encoding of RFC 3629 and consumes exactly that encoding |
| Utf8.DecodeInverse | Any_competition/Pods/Libuv-gRPC/src/idna.c:99-100 | decoding a whole encoded text gives its code points |
| Utf8.Examples | Any_competition/Pods/Libuv-gRPC/src/idna.c:27-100 | examples of section 7 of RFC 3629, with a code point of each length |
| Utf8.ForEachCodepoint | Any_competition/Pods/Libuv-gRPC/src/idna.c:99-100 | the loop goes through the code points of any text, malformed ones included, and drops a last one that would end behind the text |
| Utf8.CanonicalExactly | Any_competition/Pods/Libuv-gRPC/src/idna.c:44-97 | what is read and not reported as malformed is a Unicode scalar value; it was read from its own encoding exactly if every byte behind the first is a continuation byte, which the check on the exclusive or of the three does not ensure |
| Utf8.AcceptsWhatIsNotUtf8 | Any_competition/Pods/Libuv-gRPC/src/idna.c:70-71 | E3 C0 C2 is not UTF-8 and is read as the label separator U+3002 |
| Utf8.DecodePart | Any_competition/Pods/Libuv-gRPC/src/idna.c:250-291 | the bytes between the starts of two code points decode to the code points between them, so that it does not matter that each label is decoded again from its own bytes |
| Punycode.VarintRoundTrip | Any_competition/Pods/Libuv-gRPC/src/idna.c:192-218 | reading a variable-length integer by section 6.2 of RFC 3492 undoes writing it, for every bias |
| PunycodeRoundTrip.Lands | Any_competition/Pods/Libuv-gRPC/src/idna.c:161-188 | a delta leads the decoder to the code point and the place that the encoder has reached |
| PunycodeRoundTrip.DeltasRebuild | Any_competition/Pods/Libuv-gRPC/src/idna.c:183-239 | the deltas of the rest of a round, inserted, rebuild the input |
| PunycodeRoundTrip.RoundsRebuild | Any_competition/Pods/Libuv-gRPC/src/idna.c:161-243 | the deltas of all rounds rebuild the input |
| PunycodeRoundTrip.TextDecodes | Any_competition/Pods/Libuv-gRPC/src/idna.c:190-237 | the text of the deltas, with adapting bias, decodes to their insertions |
| PunycodeRoundTrip.RoundTrip | Any_competition/Pods/Libuv-gRPC/src/idna.c:102-246 | decoding by section 6.2 of RFC 3492 gives back every sequence of code points |
| PunycodeRoundTrip.EncodeInjective | Any_competition/Pods/Libuv-gRPC/src/idna.c:102-246 | different sequences have different encodings |
| Punycode.AdaptIs | Any_competition/Pods/Libuv-gRPC/src/idna.c:220-234 | the same closed form for the adaptation of section 6.1 of RFC 3492 |
| PunycodeSamples.SpeedEncoded | Any_competition/Pods/Libuv-gRPC/src/idna.c:153-239 | sample (R) of section 7.1 of RFC 3492, which has several insertions, is encoded as there |
| PunycodeSamples.TeacherEncoded | Any_competition/Pods/Libuv-gRPC/src/idna.c:153-239 | sample (L), with ASCII characters among the others |
| Idna.Output.Put | Any_competition/Pods/Libuv-gRPC/src/idna.c:146-147 | a character is written if there is room, and nothing else changes |
| Idna.NextDigit | Any_competition/Pods/Libuv-gRPC/src/idna.c:192-211 | one digit of a variable-length integer in 32-bit arithmetic |
| Idna.EmitVarint | Any_competition/Pods/Libuv-gRPC/src/idna.c:192-218 | the digits written are the variable-length integer of the unbounded delta |
| Idna.AdaptBias | Any_competition/Pods/Libuv-gRPC/src/idna.c:220-234 | the adaptation in 32-bit arithmetic, with its loop: 36k + 36x / (x + 38), where x is the damped and scaled delta divided k times by 35, k being the least number of times that takes it to 455 or below; 700 damps the first delta and 2 the others |
| Idna.CountLabel | Any_competition/Pods/Libuv-gRPC/src/idna.c:124-131 | counts ASCII and other code points, or finds a malformed one |
| Idna.CopyBasic | Any_competition/Pods/Libuv-gRPC/src/idna.c:140-151 | copies the ASCII characters in order |
| Idna.FindLeast | Any_competition/Pods/Libuv-gRPC/src/idna.c:167-172 | the least code point not handled yet |
| Idna.ScanRound | Any_competition/Pods/Libuv-gRPC/src/idna.c:183-239 | one round: emits the deltas of the code point, or an overflow lies ahead |
| Idna.OverflowAhead | Any_competition/Pods/Libuv-gRPC/src/idna.c:186-188 | once a delta has left 32 bits, the unbounded deltas contain one that did |
| Idna.EmitInsertions | Any_competition/Pods/Libuv-gRPC/src/idna.c:161-243 | terminates; fails exactly if some unbounded delta does not fit 32 bits, and otherwise writes the insertions of the unbounded computation |
| Idna.ToAsciiLabel | Any_competition/Pods/Libuv-gRPC/src/idna.c:102-246 | EINVAL for malformed input, E2BIG for a delta of the unbounded computation that overflows, else the text of the label; the result for an ASCII label is its length as an int |
| Idna.LabelPasses | Any_competition/Pods/Libuv-gRPC/src/idna.c:153-154 | a label passes exactly if it is well formed, no delta overflows, and it is not an ASCII label of 2^31 or more characters |
| Idna.LongLabels | Any_competition/Pods/Libuv-gRPC/src/idna.c:269-272 | a host name of that many letters fails although nothing is wrong with it, and at two lengths with the error of malformed or of too big input |
| Idna.LabelReadsBack | Any_competition/Pods/Libuv-gRPC/src/idna.c:133-246 | a label with other than ASCII starts with xn-- and decodes to the original code points; an ASCII label is copied |
| Idna.SameText | Any_competition/Pods/Libuv-gRPC/src/idna.c:133-246 | labels have the same text exactly if they are equal or one is ASCII and spells the encoding of the other |
| HostName.ToAscii | Any_competition/Pods/Libuv-gRPC/src/idna.c:250-291 | on the bytes, each label decoded again from its own: labels are split at the four full stops and joined with dots; the first failing label decides the error; a text that ends in the middle of a code point is read on behind its end, as the code does |
| HostName.PointsAreDecoded | Any_competition/Pods/Libuv-gRPC/src/idna.c:88-97 | what the decoder yields is in the range that the encoder of labels counts on, and malformed exactly where the text is |
| HostName.HostNameReadsBack | Any_competition/Pods/Libuv-gRPC/src/idna.c:250-291 | for every text in UTF-8, the ASCII text splits at its dots into texts that each stand for the label of the original |
| HostName.SameHostName | Any_competition/Pods/Libuv-gRPC/src/idna.c:250-291 | two names have the same ASCII text exactly if they have the same parts between full stops, but for ASCII parts that spell the encoding of others |
| HostName.ReadsBehind | Any_competition/Pods/Libuv-gRPC/src/idna.c:257-266 | a text that is cut inside a full stop gets a dot at its end if the missing byte is behind it, and loses what is incomplete otherwise |
| Idna.LabelTextHasNoDot | Any_competition/Pods/Libuv-gRPC/src/idna.c:102-246 | the text of a label contains no dot |
| Idna.HostReadsBack | Any_competition/Pods/Libuv-gRPC/src/idna.c:259-288 | splitting the result at dots gives the texts of the labels |
| Idna.FullStops | Any_competition/Pods/Libuv-gRPC/src/idna.c:259-288 | each of the four full stops ends a label and becomes a dot, and a name without them is one label |
| PunycodeSamples.SpeedHost | Any_competition/Pods/Libuv-gRPC/src/idna.c:259-288 | a host name of three labels between different full stops, as its text |
| Heap.Heap.NodeSwap | Any_competition/Pods/Libuv-gRPC/src/heap-inl.h:72-104 | parent and child change places and the tree stays a complete binary tree with consistent pointers |
| Heap.Heap.SwapPair | Any_competition/Pods/Libuv-gRPC/src/heap-inl.h:78-96 | the pointer writes of the swap below the pair |
| Heap.RewiringEnds | Any_competition/Pods/Libuv-gRPC/src/heap-inl.h:72-104 | the writes end in the links of the tree with the two nodes exchanged |
| Heap.PathTo | Any_competition/Pods/Libuv-gRPC/src/heap-inl.h:122-124 | the bits of the node count, reversed, lead from the root to that slot of the level order |
| Heap.Heap.Locate | Any_competition/Pods/Libuv-gRPC/src/heap-inl.h:127-136 | following the path ends at the pointer that holds that slot |
| Heap.Heap.Attach | Any_competition/Pods/Libuv-gRPC/src/heap-inl.h:115-141 | the new node is the last of the bottom row |
| Heap.SiftUpStep | Any_competition/Pods/Libuv-gRPC/src/heap-inl.h:146-147 | one turn of the walk up keeps all order but the edge above the node |
| Heap.Heap.SiftUp | Any_competition/Pods/Libuv-gRPC/src/heap-inl.h:143-147 | the walk up ends with heap order, the nodes being the same |
| Heap.Heap.Insert | Any_competition/Pods/Libuv-gRPC/src/heap-inl.h:106-148 | keeps the complete tree and heap order for any strict weak order, and adds exactly the node |
| Heap.Heap.DetachLast | Any_competition/Pods/Libuv-gRPC/src/heap-inl.h:166-185 | unlinks the last node of the bottom row |
| Heap.Heap.Replace | Any_competition/Pods/Libuv-gRPC/src/heap-inl.h:195-214 | the last node takes the place and the links of the removed one |
| Heap.Heap.Smallest | Any_competition/Pods/Libuv-gRPC/src/heap-inl.h:221-225 | the child chosen comes before the node and its sibling does not come before it |
| Heap.SiftDownStep | Any_competition/Pods/Libuv-gRPC/src/heap-inl.h:220-229 | one turn of the walk down keeps all order but the edges below the node |
| Heap.Heap.SiftDown | Any_competition/Pods/Libuv-gRPC/src/heap-inl.h:216-229 | the walk down ends with order below the node |
| Heap.Heap.Remove | Any_competition/Pods/Libuv-gRPC/src/heap-inl.h:150-237 | keeps the complete tree and heap order and takes out exactly the node, for any member |
| Heap.Heap.Dequeue | Any_competition/Pods/Libuv-gRPC/src/heap-inl.h:239-241 | takes out the minimum |
| Heap.Heap.Min | Any_competition/Pods/Libuv-gRPC/src/heap-inl.h:67-69 | a node that no other comes before, or none if there is none |
| Heap.RootIsLeast | Any_competition/Pods/Libuv-gRPC/src/heap-inl.h:33-39 | the root of an ordered heap is least |
| Timers.BeforeIsStrictWeakOrder | Any_competition/Pods/Libuv-gRPC/src/timer.c:38-55 | timer_less_than is a strict weak order |
| Timers.Deadline | Any_competition/Pods/Libuv-gRPC/src/timer.c:78-80 | the wrapped and corrected sum is the exact deadline cut to 64 bits, and later than now exactly if the timeout is positive and time is not at its end |
| Timers.Loop.Init | Any_competition/Pods/Libuv-gRPC/src/timer.c:58-63 | an initialised handle is inactive |
| Timers.Loop.Start | Any_competition/Pods/Libuv-gRPC/src/timer.c:66-94 | EINVAL exactly for a closing handle or no callback, without effect; else the handle is active with its deadline and the next start id, all others unchanged |
| Timers.Loop.Stop | Any_competition/Pods/Libuv-gRPC/src/timer.c:97-107 | the handle is inactive and out of the heap, all others unchanged |
| Timers.Loop.Again | Any_competition/Pods/Libuv-gRPC/src/timer.c:110-120 | a repeating timer is due at min(time + repeat, 2^64 - 1) with the next id, and all else as before; EINVAL exactly if it has no callback |
| Timers.Loop.SetRepeat | Any_competition/Pods/Libuv-gRPC/src/timer.c:123-125 | only the repeat changes |
| Timers.Loop.Close | Any_competition/Pods/Libuv-gRPC/src/timer.c:174-176 | a closed handle is inactive and out of the heap |
| Timers.Loop.Set | Any_competition/Pods/Libuv-gRPC/src/uv-common.h:241-257 | writing flags of a handle does not disturb the heap |
| Timers.Loop.NextTimeout | Any_competition/Pods/Libuv-gRPC/src/timer.c:133-151 | -1 exactly if no timer is active, 0 exactly if one is due, else the time left to the earliest, cut to INT_MAX and never more than the time left to any |
| Timers.Loop.Turn | Any_competition/Pods/Libuv-gRPC/src/timer.c:158-168 | one turn fires the first due timer, which is due again at min(time + repeat, 2^64 - 1) with the next id or becomes inactive, or nothing is due |
| Timers.Loop.RunTimers | Any_competition/Pods/Libuv-gRPC/src/timer.c:154-171 | terminates, fires exactly the due timers, once each and in order; those that repeat are due again at min(time + repeat, 2^64 - 1) with successive start ids, the others become inactive, and none is left due |
| Timers.RanOn | Any_competition/Pods/Libuv-gRPC/src/timer.c:158-170 | a turn extends a run by a timer that had not fired |
| Timers.FiredInOrder | Any_competition/Pods/Libuv-gRPC/src/timer.c:38-55 | timers fire in the order of timeout and start id, strictly while the counter has not wrapped |
| Timers.StartKeepsFreshIds | Any_competition/Pods/Libuv-gRPC/src/timer.c:85-86 | start ids of active timers stay distinct until the counter wraps |
| Timers.RanKeepsFreshIds | Any_competition/Pods/Libuv-gRPC/src/timer.c:154-171 | a run of due timers keeps active timers apart by their ids while the counter does not wrap in it |
| Timers.FreshUntilWrap | Any_competition/Pods/Libuv-gRPC/src/timer.c:58-171 | from a new loop on, the ids of active timers are distinct and below the counter in every state reached with fewer than 2^64 starts |
| Timers.RearmedIsDue | Any_competition/Pods/Libuv-gRPC/src/timer.c:78-80 | a fired timer is due again exactly if it repeats and time is at 2^64 - 1 |
| Timers.FiredTimers | Any_competition/Pods/Libuv-gRPC/src/timer.c:110-120 | a repeating timer that fired is active, due at min(time + repeat, 2^64 - 1), and keeps repeat and callback; another differs only in being inactive |
| Timers.FiresAgainExactly | Any_competition/Pods/Libuv-gRPC/src/timer.c:154-171 | over runs at times t1 < t2, a timer with repeat r that fired at t1 and was left alone fires at t2 exactly if t2 >= t1 + r |
| Timers.NeverEnds | Any_competition/Pods/Libuv-gRPC/src/timer.c:154-171 | at time 2^64 - 1 a repeating timer keeps the loop turning for ever |
| InetText.Parse4Inverse | Any_competition/Pods/Libuv-gRPC/src/inet.c:179-215 | inet_pton4 accepts exactly the canonical dotted quads, and returns the address they print |
| InetGrammar.AcceptsExactly | Any_competition/Pods/Libuv-gRPC/src/inet.c:218-302 | a text is accepted as an address if and only if it is one of the grammar that spells this address |
| InetGrammar.RoundTrip6 | Any_competition/Pods/Libuv-gRPC/src/inet.c:218-302 | parsing the printed text gives the address back |
| InetText.BestIsUnique | Any_competition/Pods/Libuv-gRPC/src/inet.c:88-111 | there is one leftmost longest run |
| InetText.Text6Fits | Any_competition/Pods/Libuv-gRPC/src/inet.c:75 | an IPv6 text fits the 46 characters reserved for it |
| InetText.MappedText | Any_competition/Pods/Libuv-gRPC/src/inet.c:119-133 | every address ::ffff:a.b.c.d is printed with the quad as its tail |
| InetText.CompatibleText | Any_competition/Pods/Libuv-gRPC/src/inet.c:119-133 | so is every address ::a.b.c.d from 65536 on |
| InetText.DottedExactly | Any_competition/Pods/Libuv-gRPC/src/inet.c:119-133 | these are all the addresses that have a dot in their text |
| InetText.CompressedText | Any_competition/Pods/Libuv-gRPC/src/inet.c:84-140 | all other addresses with two adjacent zero words have the first of their longest runs replaced by two colons |
| InetText.UncompressedText | Any_competition/Pods/Libuv-gRPC/src/inet.c:84-140 | addresses without are printed with all their eight words |
| InetText.HexIsPlain | Any_competition/Pods/Libuv-gRPC/src/inet.c:134 | the groups have no leading zeros and no upper case |
| InetText.Text4Fits | Any_competition/Pods/Libuv-gRPC/src/inet.c:55 | a quad fits the 16 characters reserved for it |
| Inet.StrScpy | Any_competition/Pods/Libuv-gRPC/src/strscpy.c:4-17 | copies and terminates and returns the length, or cuts and reports if there is no room; with no room at all nothing is written and 0 returned |
| Inet.Ntop4 | Any_competition/Pods/Libuv-gRPC/src/inet.c:53-64 | writes the canonical quad, or fails without a write exactly if it does not fit |
| Inet.LoadWords | Any_competition/Pods/Libuv-gRPC/src/inet.c:85-87 | the bytes two by two |
| Inet.FindBest | Any_competition/Pods/Libuv-gRPC/src/inet.c:88-111 | the leftmost of the longest runs of at least two zero words, if there is one |
| Inet.Format | Any_competition/Pods/Libuv-gRPC/src/inet.c:113-142 | writes the text in which that run, and nothing else, is compressed, with the two embedded IPv4 forms |
| Inet.Ntop6 | Any_competition/Pods/Libuv-gRPC/src/inet.c:67-147 | the text of the address goes to the buffer; ENOSPC exactly if it does not fit a buffer of positive size |
| Inet.Pton4 | Any_competition/Pods/Libuv-gRPC/src/inet.c:179-215 | parses in place; the destination changes only on success |
| Inet.ShiftToEnd | Any_competition/Pods/Libuv-gRPC/src/inet.c:287-296 | the overlapping shift by hand moves the bytes to the end and zeroes the gap |
| Inet.Pton6 | Any_competition/Pods/Libuv-gRPC/src/inet.c:218-302 | parses in place; the destination changes only on success |
| Inet.UvPton6 | Any_competition/Pods/Libuv-gRPC/src/inet.c:157-171 | a zone after a percent sign is cut off |
| Inet.AddressRoundTrip | Any_competition/Pods/Libuv-gRPC/src/inet.c:67-147 | for every 16-byte address, inet_pton6 of inet_ntop6 is the address |
| Inet.ScopedRoundTrip | Any_competition/Pods/Libuv-gRPC/src/inet.c:157-171 | also through uv_inet_pton with any zone behind the text |
| LittleEndian.UnFixedInverse | Any_competition/Pods/leveldb-library/util/coding.h:58-84 | fixed-size integers are read back |
| LittleEndian.FixedInverse | Any_competition/Pods/leveldb-library/util/coding.h:58-84 | bytes are those of the number they stand for |
| DbFormat.EncodedParts | Any_competition/Pods/leveldb-library/db/dbformat.cc:14-24 | the user key and the tag of an appended internal key |
| DbFormat.KeyBytes | Any_competition/Pods/leveldb-library/db/dbformat.cc:14-24 | the eight bytes behind the user key: the type, 0 or 1, then the seven bytes of the sequence number, lowest first |
| DbFormat.ParseOfAppend | Any_competition/Pods/leveldb-library/db/dbformat.h:165-175 | parsing undoes appending |
| DbFormat.ParseExact | Any_competition/Pods/leveldb-library/db/dbformat.h:165-175 | a key parses to p exactly if it is the encoding of p, and fails exactly if it is short or has an unknown type |
| DbFormat.CompareDecidesBefore | Any_competition/Pods/leveldb-library/db/dbformat.cc:51-67 | comparing encodings decides: user key up, then sequence down, then type down |
| DbIter.SnapshotCorrect | Any_competition/Pods/leveldb-library/db/db_iter.cc:168-198 | the snapshot map is the one map that holds, for each user key, its newest visible entry unless that is a deletion |
| DbIter.FirstLiveIsSuccessor | Any_competition/Pods/leveldb-library/db/db_iter.cc:141-166 | the next live entry of the run is the successor in the snapshot map |
| DbIter.LastLiveIsPredecessor | Any_competition/Pods/leveldb-library/db/db_iter.cc:200-225 | the previous live entry is the predecessor |
| DbIter.FirstLiveIsFirstFrom | Any_competition/Pods/leveldb-library/db/db_iter.cc:269-281 | the first live entry from the seek position is the least key not below the target |
| DbIter.SeekSplits | Any_competition/Pods/leveldb-library/db/db_iter.cc:269-281 | the lookup key splits the run: before it no visible entry has a key not below the target |
| DbIter.DBIter.Key | Any_competition/Pods/leveldb-library/db/db_iter.cc:64-67 | the current key is a key of the snapshot map |
| DbIter.DBIter.Value | Any_competition/Pods/leveldb-library/db/db_iter.cc:68-71 | the current value is the value of the snapshot map |
| DbIter.DBIter.FindNextUserEntry | Any_competition/Pods/leveldb-library/db/db_iter.cc:168-198 | stops at the first live entry from the position, or becomes invalid |
| DbIter.DBIter.FindPrevUserEntry | Any_competition/Pods/leveldb-library/db/db_iter.cc:227-267 | stops at the last live entry up to the position, or becomes invalid |
| DbIter.DBIter.Seek | Any_competition/Pods/leveldb-library/db/db_iter.cc:269-281 | lands on the least visible key not below the target, or is invalid exactly if there is none |
| DbIter.DBIter.SeekToFirst | Any_competition/Pods/leveldb-library/db/db_iter.cc:283-292 | lands on the least key, or is invalid exactly if the map is empty |
| DbIter.DBIter.SeekToLast | Any_competition/Pods/leveldb-library/db/db_iter.cc:294-299 | lands on the greatest key, or is invalid exactly if the map is empty |
| DbIter.DBIter.Next | Any_competition/Pods/leveldb-library/db/db_iter.cc:141-166 | moves to the successor, also right after moving backwards, or becomes invalid exactly if there is none |
| DbIter.DBIter.Prev | Any_competition/Pods/leveldb-library/db/db_iter.cc:200-225 | moves to the predecessor, also right after moving forwards, or becomes invalid exactly if there is none |
| DbIter.StepsCancel | Any_competition/Pods/leveldb-library/db/db_iter.cc:141-225 | a step and a step back return to the key |
| DbIter.ScanForward | Any_competition/Pods/leveldb-library/db/db_iter.cc:141-166 | SeekToFirst and Next go through exactly the pairs of the snapshot map in increasing order |
| DbIter.ScanBackward | Any_competition/Pods/leveldb-library/db/db_iter.cc:200-225 | SeekToLast and Prev go through them in the opposite direction |
| Matches.MirrorTwice | Any_competition/Any_competition/Models/Match.swift:54-67 | mirroring twice is the identity exactly if the flag says what the scores say |
| Matches.MakeMatchOnce | Any_competition/Any_competition/Models/Match.swift:37-52 | a match is made once; it holds the two scores, its mirror the same the other way round, and the flags of both say who won |
| CompetitionTables.CompetitionTable.constructor | Any_competition/Any_competition/Models/CompetitionTable.swift:35-39 | a new table |
| CompetitionTables.CompetitionTable.CreateCompetitionTable | Any_competition/Any_competition/Models/CompetitionTable.swift:41-57 | cell (i, j) is an undone match of players i and j with that index |
| CompetitionTables.CompetitionTable.FinishMatch | Any_competition/Any_competition/Models/CompetitionTable.swift:59-70 | writes the match and its mirror, counts it and checks for the end |
| CompetitionTables.CompetitionTable.CheckFinish | Any_competition/Any_competition/Models/CompetitionTable.swift:72-77 | sets the flag when the counter reaches the number of games |
| CompetitionTables.CompetitionTable.PlayMatch | Any_competition/Any_competition/Models/CompetitionTable.swift:59-70 | a fair move with scores a and b leaves cell (i, j) done with a and b, cell (j, i) done with b and a, every other cell as it was, and the table sound |
| CompetitionTables.CompetitionTable.CalculatePointsOfPlayer | Any_competition/Any_competition/Models/CompetitionTable.swift:80-95 | the number of won cells in the row |
| CompetitionTables.GamesCount | Any_competition/Any_competition/Models/CompetitionTable.swift:38 | (n * n - n) / 2 is the number of pairs of players |
| CompetitionTables.StartIsSound | Any_competition/Any_competition/Models/CompetitionTable.swift:35-57 | a new table is sound exactly if there are at least two players |
| CompetitionTables.PlayKeepsMirror | Any_competition/Any_competition/Models/CompetitionTable.swift:59-66 | finishing a match of two players keeps cell (j, i) the mirror of cell (i, j) |
| CompetitionTables.PlayKeepsSound | Any_competition/Any_competition/Models/CompetitionTable.swift:59-77 | counter and flag stay right exactly if the match was still undone |
| CompetitionTables.OwnCellBreaks | Any_competition/Any_competition/Models/CompetitionTable.swift:59-66 | finishing a player's own cell breaks the table |
| CompetitionTables.WholeRun | Any_competition/Any_competition/Models/CompetitionTable.swift:35-77 | along every fair run the counter is the number of moves, and the flag is set if and only if all n(n-1)/2 games are done |
| CompetitionTables.CellsOfRun | Any_competition/Any_competition/Models/CompetitionTable.swift:59-70 | along every fair run a cell holds exactly the scores of the one move that played its pair, turned to its side, or is undone with none |
| CompetitionTables.WonOnce | Any_competition/Any_competition/Models/Match.swift:44-64 | a game with a winner is won in exactly one of its two cells |
| CompetitionTables.PointsAddUp | Any_competition/Any_competition/Models/CompetitionTable.swift:80-95 | the points of all players add up to the finished games with unequal scores, so they never exceed the finished games |
| CompetitionTables.PointsOfRun | Any_competition/Any_competition/Models/CompetitionTable.swift:80-95 | along every run the points of all players never exceed the finished games, and are as many exactly if none was a draw |
| NanopbIter.FieldIter.Begin | Any_competition/Pods/nanopb/pb_common.c:8-27 | position 0 and the data pointers of the first field |
| NanopbIter.FieldIter.Next | Any_competition/Pods/nanopb/pb_common.c:29-85 | goes on cyclically; pData, pSize and required_field_index are functions of the position |
| NanopbIter.PointsAtMembers | Any_competition/Pods/nanopb/pb_common.c:50-82 | with descriptors that the macros of pb.h make of the members of a struct, pData and pSize point at those members, arrays, pointers and unions included |
| NanopbIter.FieldIter.Find | Any_competition/Pods/nanopb/pb_common.c:87-104 | for a nonzero tag succeeds if and only if a field that is no extension has it, and stands on it; otherwise stays where it was |
| NanopbIter.CountRequired | Any_competition/Pods/nanopb/pb_decode.c:1045-1055 | the number of required fields, from any position |
| NanopbIter.FieldsSeen.Mark | Any_competition/Pods/nanopb/pb_decode.c:1021-1026 | sets exactly one bit |
| NanopbIter.FieldsSeen.Check | Any_competition/Pods/nanopb/pb_decode.c:1057-1078 | passes exactly if every required field up to 64 was marked |
| NanopbIter.OnesByBits | Any_competition/Pods/nanopb/pb_decode.c:1062-1077 | a word equals the mask exactly if the bits below, and no others, are set |
| NanopbRequired.SeenAreNoted | Any_competition/Pods/nanopb/pb_decode.c:1021-1026 | the required fields seen are those whose tags were on the wire |
| NanopbRequired.RequiredCheck | Any_competition/Pods/nanopb/pb_decode.c:1039-1079 | with at most 64 required fields the check passes if and only if every required tag occurred, in any order |
| NanopbWire.VarintRoundTrip | Any_competition/Pods/nanopb/pb_decode.c:255-275 | every 64-bit number is read back from the 1 to 10 bytes written, and no more is consumed |
| NanopbWire.ZigZagInverse | Any_competition/Pods/nanopb/pb_encode.c:630-639 | zig-zag encoding and decoding invert each other on all of int64 |
| NanopbWire.Varint32RoundTrip | Any_competition/Pods/nanopb/pb_decode.c:187-247 | every 32-bit number is read back by the 32-bit decoder |
| NanopbWire.Varint32SignExtended | Any_competition/Pods/nanopb/pb_decode.c:221-230 | the ten bytes of a negative int32 yield its low 32 bits |
| NanopbBytes.Varint32Accepts | Any_competition/Pods/nanopb/pb_decode.c:187-247 | the 32-bit decoder on every 64-bit number: it accepts, besides 32-bit numbers, exactly those with bits 63 and 31 set and each group of seven bits from bit 35 on all clear or all set, and never looks at bits 32 to 34 |
| NanopbWire.FixedRoundTrip | Any_competition/Pods/nanopb/pb_decode.c:1299-1331 | fixed-size numbers are read back |
| NanopbBytes.VarintDigits | Any_competition/Pods/nanopb/pb_encode.c:608-628 | byte i of a varint is digit i to the base 128, with the top bit on all but the last |
| NanopbBytes.VarintShortest | Any_competition/Pods/nanopb/pb_encode.c:608-628 | a varint has as few bytes as hold the number |
| LittleEndian.FixedDigits | Any_competition/Pods/nanopb/pb_encode.c:641-667 | byte i of a fixed-size number is digit i to the base 256 |
| NanopbWire.TagRoundTrip | Any_competition/Pods/nanopb/pb_decode.c:298-319 | tags are read back |
| NanopbWire.SubstreamRoundTrip | Any_competition/Pods/nanopb/pb_decode.c:372-385 | a length-delimited part is split off again |
| NanopbWire.SkipLocal | Any_competition/Pods/nanopb/pb_decode.c:321-331 | a field that is skipped whole is skipped just so in front of other bytes |
| NanopbEncode.OStream.Write | Any_competition/Pods/nanopb/pb_encode.c:103-124 | on a buffer succeeds exactly if there is room, and then puts the bytes in their place and nothing else; on a sizing stream counts them |
| NanopbEncode.OStream.EncodeVarint | Any_competition/Pods/nanopb/pb_encode.c:608-628 | writes the varint of a 64-bit number |
| NanopbEncode.OStream.EncodeSvarint | Any_competition/Pods/nanopb/pb_encode.c:630-639 | writes the varint of the zig-zag number |
| NanopbEncode.OStream.EncodeFixed | Any_competition/Pods/nanopb/pb_encode.c:641-667 | writes the bytes, the lowest first |
| NanopbEncode.OStream.EncodeTag | Any_competition/Pods/nanopb/pb_encode.c:669-673 | writes the tag |
| NanopbEncode.OStream.EncodeString | Any_competition/Pods/nanopb/pb_encode.c:709-715 | writes length and bytes |
| NanopbEncode.OStream.EncodeNumber | Any_competition/Pods/nanopb/pb_encode.c:769-850 | the encoders of the numeric types |
| NanopbEncode.PutsThen | Any_competition/Pods/nanopb/pb_encode.c:103-124 | writing in parts is writing the whole, and fails exactly if the whole does not fit |
| NanopbEncode.CheckDefault | Any_competition/Pods/nanopb/pb_encode.c:240-336 | the recursive check for a proto3 default value |
| NanopbEncode.PackedSize | Any_competition/Pods/nanopb/pb_encode.c:169-189 | the size computed for a packed array, with or without a sizing pass, is that of its entries |
| NanopbEncode.EncodeArray | Any_competition/Pods/nanopb/pb_encode.c:147-236 | packed and unpacked arrays, on sizing and on writing streams alike |
| NanopbEncode.EncodeField | Any_competition/Pods/nanopb/pb_encode.c:341-426 | one field of a message |
| NanopbBytes.RecordBytes | Any_competition/Pods/nanopb/pb_encode.c:675-707 | a field that is no array starts with 8 times its number plus 0, 1, 2 or 5, by its type |
| NanopbBytes.PackedArrayBytes | Any_competition/Pods/nanopb/pb_encode.c:157-205 | an array of numbers is one record of wire type 2 with its length |
| NanopbBytes.BlobWritten | Any_competition/Pods/nanopb/pb_encode.c:852-912 | which sizes of bytes, strings and inline bytes have an encoding; a string may fill its buffer |
| NanopbBytes.TooManyEntries | Any_competition/Pods/nanopb/pb_encode.c:147-158 | an array with more entries than it can hold, or with another number than its fixed count, has no encoding, nor has its message |
| NanopbEncode.EncodeSubmessage | Any_competition/Pods/nanopb/pb_encode.c:717-765 | the second pass writes as many bytes as the first counted, so the size-changed error cannot occur |
| NanopbEncode.EncodeMessage | Any_competition/Pods/nanopb/pb_encode.c:528-550 | on every stream, writes exactly the bytes of the message, or fails exactly if there is no encoding or no room |
| NanopbBytes.FieldsInOrder | Any_competition/Pods/nanopb/pb_encode.c:528-550 | a message is the bytes of its fields in the order of the schema |
| NanopbSample.SampleBytes | Any_competition/Pods/nanopb/pb_encode.c:341-426 | a message with a field of every kind, byte by byte |
| NanopbEncode.GetEncodedSize | Any_competition/Pods/nanopb/pb_encode.c:567-576 | the number of bytes of the encoding |
| NanopbEncode.EncodeIntoBuffer | Any_competition/Pods/nanopb/pb_encode.c:567-576 | if the size can be computed, encoding succeeds in any buffer with that room and takes exactly that much of it |
| NanopbDecode.IStream.ReadBytes | Any_competition/Pods/nanopb/pb_decode.c:102-137 | succeeds exactly if that many bytes are left |
| NanopbDecode.IStream.DecodeVarint32Eof | Any_competition/Pods/nanopb/pb_decode.c:187-247 | the 32-bit varint decoder with its overflow checks |
| NanopbDecode.IStream.DecodeVarint | Any_competition/Pods/nanopb/pb_decode.c:255-275 | the 64-bit varint decoder |
| NanopbDecode.IStream.DecodeTag | Any_competition/Pods/nanopb/pb_decode.c:298-319 | a tag, or the end of the message at a zero byte or the end of the bytes |
| NanopbDecode.IStream.SkipField | Any_competition/Pods/nanopb/pb_decode.c:278-331 | skips one field by its wire type |
| NanopbDecode.IStream.MakeSubstream | Any_competition/Pods/nanopb/pb_decode.c:372-385 | the bytes that a length announces become a stream of their own |
| NanopbDecode.IStream.CloseSubstream | Any_competition/Pods/nanopb/pb_decode.c:387-400 | the stream goes on behind its substream |
| NanopbDecode.DecodeNumber | Any_competition/Pods/nanopb/pb_decode.c:1334-1445 | the decoders of the numeric types with their range checks |
| NanopbDecode.DecodeBlob | Any_competition/Pods/nanopb/pb_decode.c:1447-1570 | bytes, strings and inline bytes with their size checks |
| NanopbDecode.SetToDefaults | Any_competition/Pods/nanopb/pb_decode.c:845-928 | the initial message |
| NanopbBytes.InitialMessage | Any_competition/Pods/nanopb/pb_decode.c:845-928 | the initial values of required and singular fields at every depth, and nothing in the others |
| NanopbDecode.DecodeValue | Any_competition/Pods/nanopb/pb_decode.c:1525-1547 | one value, submessages included |
| NanopbDecode.DecodePacked | Any_competition/Pods/nanopb/pb_decode.c:428-452 | a packed array |
| NanopbDecode.DecodeArray | Any_competition/Pods/nanopb/pb_decode.c:424-464 | one entry or one packed piece of an array |
| NanopbDecode.DecodeField | Any_competition/Pods/nanopb/pb_decode.c:406-483 | one field by its rule; the arms of a oneof exclude each other |
| NanopbDecode.DecodeNoinit | Any_competition/Pods/nanopb/pb_decode.c:934-1082 | the loop over the fields, fixed-count arrays and required fields included, accepts exactly the bytes that the decoding function accepts, with its result |
| NanopbDecode.DecodeMessage | Any_competition/Pods/nanopb/pb_decode.c:1084-1096 | the same from the initial message |
| NanopbFields.NumberRoundTrip | Any_competition/Pods/nanopb/pb_decode.c:1334-1445 | numbers of all types and sizes are read back |
| NanopbBytes.NumberBytesAre | Any_competition/Pods/nanopb/pb_encode.c:769-850 | the unsigned number that each type writes; a negative int32 or int64 takes ten bytes |
| NanopbBytes.NumberRead | Any_competition/Pods/nanopb/pb_decode.c:1345-1430 | every varint that each integer type and size accepts, and as what number |
| NanopbBytes.BlobRead | Any_competition/Pods/nanopb/pb_decode.c:1447-1570 | exactly the sizes that bytes, strings and inline bytes accept; inline bytes of size 0 are zeros |
| NanopbFields.BlobRoundTrip | Any_competition/Pods/nanopb/pb_decode.c:1447-1570 | bytes and strings are read back |
| NanopbFields.DefaultsOnly | Any_competition/Pods/nanopb/pb_encode.c:240-336 | a proto3 submessage that is left out is the one that decoding starts from |
| NanopbFields.PackedRoundTrip | Any_competition/Pods/nanopb/pb_encode.c:164-205 | packed entries are read back |
| NanopbRoundTrip.ItemsRoundTrip | Any_competition/Pods/nanopb/pb_encode.c:209-232 | entries with a tag each are read back |
| NanopbRoundTrip.FieldRoundTrip | Any_competition/Pods/nanopb/pb_encode.c:341-426 | the bytes of a field take the decoder over that field |
| NanopbFields.SkipsUnknown | Any_competition/Pods/nanopb/pb_decode.c:966-995 | well-formed unknown fields leave the state as it was |
| NanopbBytes.SkipTakes | Any_competition/Pods/nanopb/pb_decode.c:278-331 | what each wire type skips; 3, 4, 6 and 7 are errors |
| NanopbEvolution.ValueSkips | Any_competition/Pods/nanopb/pb_decode.c:321-331 | skipping by the wire type of a field consumes exactly the bytes that were encoded for its value |
| NanopbEvolution.EncodedIsSkipped | Any_competition/Pods/nanopb/pb_decode.c:966-995 | a decoder whose schema has none of the tags goes on behind an encoded message in the state it was in, whatever follows |
| NanopbEvolution.DecodedWithout | Any_competition/Pods/nanopb/pb_decode.c:966-995 | a decoder whose schema lacks fields, at any depth, decodes the encoding to exactly the other fields |
| NanopbFields.MessageHasBytes | Any_competition/Pods/nanopb/pb_encode.c:528-550 | every fitting message has an encoding |
| NanopbRoundTrip.ValueRoundTrip | Any_competition/Pods/nanopb/pb_decode.c:1334-1570 | a value of any type is read back, submessages with unknown fields inside included |
| NanopbRoundTrip.DecodePadded | Any_competition/Pods/nanopb/pb_decode.c:934-1096 | for every well-formed schema tree and fitting message, decoding the encoding gives the message back, also with unknown fields in every gap between its fields, at every depth |
| NanopbRoundTrip.ShortMessage | Any_competition/Pods/nanopb/pb_decode.c:372-380 | a message below 4 GiB as a whole meets the bound that the decoder needs of every part with a length |
| NanopbRoundTrip.PlainMessage | Any_competition/Pods/nanopb/pb_encode.c:528-550 | with no unknown fields these are exactly the bytes that are encoded |
| NanopbRoundTrip.MessageRoundTrip | Any_competition/Pods/nanopb/pb_decode.c:1084-1096 | decoding the encoding gives the message back |
| NanopbMerge.NoinitMerges | Any_competition/Pods/nanopb/pb_decode.h:70-80 | pb_decode_noinit onto a message merges: arrays grow, submessages merge, a set arm clears the others, anything else that was encoded replaces what was there, and what was not encoded stays; it fails exactly if an array has no room for both |
| NanopbMerge.ConcatenationMerges | Any_competition/Pods/nanopb/pb_decode.c:997-1019 | two encoded messages one behind the other decode to their merge, except, always, by a schema with exactly one fixed-count array, which fails |
| NanopbMerge.ZeroEnds | Any_competition/Pods/nanopb/pb_decode.h:93-98 | a zero byte behind a message ends it, whatever follows |
| NanopbBounds.DecodedHolds | Any_competition/Pods/nanopb/pb_decode.c:934-1096 | whatever the bytes, what is decoded is in bounds at every depth: counts, capacities, ranges, one arm of a oneof, fixed-count arrays full or never met |
| NanopbBounds.DecodedReadsBack | Any_competition/Pods/nanopb/pb_decode.c:1084-1096 | a message that was decoded, with its fixed-count arrays full, can be encoded, and is decoded again from that encoding |
| NanopbWhole.Transfer | Any_competition/Pods/nanopb/pb_decode.c:1084-1096 | encoding into a buffer succeeds exactly if the message fits, and decoding the buffer then gives the message back |
| NanopbRoundTrip.StringNeedsTerminator | Any_competition/Pods/nanopb/pb_decode.c:1487-1523 | a string is read back exactly if it leaves room for its terminator |
| NanopbRoundTrip.SingularNeedsZero | Any_competition/Pods/nanopb/pb_encode.c:269-336 | a proto3 number is given back exactly if it is not zero or the field is initialised to zero |

## Left out

- ThreadPool.Pool: starting and joining threads, environment variables, forks; the mutex is
  the atomicity of a step, and a worker's work function is a step without effects.
- ThreadPoolRequests.CancelSucceedsExactly: cancel is called by the loop's own thread and
  before the done call, as libuv demands.
- Queue.Walk: the callbacks leave the queue alone; a callback that closes or starts handles
  is not modelled.
- Idna.ToAsciiLabel: labels of fewer than 2^32 code points, so that the counters fit.
- HostName.ToAscii: memory that ends less than three bytes behind a text that is cut in the
  middle of a code point, where the code reads out of bounds.
- Heap.Heap.Insert: fewer than 2^32 - 1 nodes, as the unsigned counter demands.
- Timers.Loop.Init: the handle queue of the loop and the referenced flag of the handle.
- Timers.Loop.Set: the count of active handles of the loop, which the macros change too.
- Timers.Loop.RunTimers: the callbacks leave the timers alone.
- Timers.FiredInOrder: after 2^64 starts the ids wrap around and only the order by the ids as
  stored remains.
- Inet: the dispatch of `uv_inet_ntop` and `uv_inet_pton` on the address family, and null
  arguments.
- DbFormat: the separator functions and `LookupKey`; the user comparator is any total order.
- DbIter: read sampling, the trimming of the saved value's capacity, corrupt keys and I/O
  errors; every key parses, and the run holds no internal key twice.
- CompetitionTables.CompetitionTable.CalculatePointsOfPlayer: the code reads the cells of the
  competition that the app shows; the model takes that to be this table.
- Matches: the fields of a user that matches do not look at, dictionaries and coding.
- NanopbIter.FieldIter: a null struct, for which the data pointers mean nothing.
- NanopbMessage: the layout of structs in memory; what the memory of an absent field holds is
  dropped, so that messages are compared up to the contents of absent fields.
- NanopbMessage.ValueBytes: callbacks, extensions and pointer fields; and `pb_size_t` is taken
  as 32 bits, its widest setting, for the checks against it.
- NanopbEncode.OStream.Write: the wrap-around of `size_t` after 2^64 bytes, and streams with
  callbacks of their own.
- NanopbDecode.DecodeNoinit: `pb_decode_noinit` on a struct whose absent fields hold older
  contents.
- NanopbRoundTrip.DecodePadded: parts with a length of 4 GiB or more, since lengths are decoded
  as 32 bits; the message as a whole may be longer.
- NanopbRequired.RequiredCheck: required fields beyond the 64 of the bitmap are not checked by
  the code, so at most 64 are assumed.
- The views and controllers, the store, the listeners and transactions, and the other vendored
  sources: layout, network and foreign framework calls.
