# Verified models of the trading tools

This project models the parts of the repository that compute or coordinate something by themselves,
and proves what they keep, compute and promise. `dafny verify dfyconfig.toml` checks everything.

| files | what they model |
|---|---|
| `Words`, `Remainder`, `Division`, `Augmented` | register words as bit sequences, lowest bit first; the polynomial remainder over GF(2) as a register and as long division; augmented messages |
| `CrcEngines`, `CrcTheorems`, `CrcFrames` | the CRC computers: bit at a time, table generator, table driven, augmented; their agreement, the bursts they detect, and the frames their checksums make |
| `Pool`, `PoolInvariant`, `PoolRuns`, `PoolTheorems`, `PoolSleep`, `PoolShutdown`, `PoolResize`, `PoolDraining`, `PoolOverlap` | the thread pool as a state machine over the atomic steps of its threads: queue, mutex, condition variable with spurious wake-ups, stop flags, growing, shrinking, draining and aborting |
| `CopierRules`, `CopierTheorems`, `Copier` | the trade copier's rule tables as values, what they say about the rules loaded, and the objects with their nested lists and hash indexes |
| `CppDivision`, `XmlArithmetic`, `XmlTheorems` | truncating integer division; the evaluator of arithmetic in a property tree and its meaning |
| `OrderBook`, `OrderBookTheorems`, `Fills` | the order book with its clock, weighted price and price container; the running average price of fills |
| `Subscriptions` | the market data subscriptions of a FIX session (FIX 4.4, Market Data Request and Market Data Request Reject) |
| `Basics` | an option type and a few facts that several models share |

Loops and objects of the code are loops and objects here: methods are proved against functions, and
the properties are proved of the functions. The thread pool is a step relation, since its threads
interleave. A run is a list of steps or of events; statements about runs are statements about all of them.

Findings, where the code does less than its comments or its shape suggest:

- `crc_xmodem_type` uses the bit-reversed constant 0x8408, which is even, and misses bursts within its
  width. The other three types catch all of them.
- `stop(true)` is said to run all functions in the queue. A pool with one thread can lose a task that was
  queued just after that thread found the queue empty: then the task is deleted unrun. With two threads or
  more, or with one and a push that has notified, no task is. The exact condition is proved.
- Erasing an order removes every copy of its price. With two orders at one price the high price is then
  read from an empty container. The exact conditions for the container and for the high price to be right
  are proved.
- An erase that finds the book empty adds its whole timestamp to the total time; nothing else does.
- A rejected market data request can still change the feed: the symbols before the rejected one stay
  subscribed or unsubscribed, a rejected subscribe takes over the request id of its symbol, and a rejected
  unsubscribe removes it. When a rejected request changes nothing is proved exactly.
- A logon without a logout keeps sending ticks for symbols that no longer count as subscribed. When the
  subscribed symbols are those that get ticks is proved exactly.

## Model

| member | source | states |
|---|---|---|
| `CrcTheorems.CompareEngines` | thirdparty/boost_1_68_0/boost/crc.hpp:727-823 | The table-driven computer and the bit-at-a-time computer both return the checksum and the interim remainder of the message, for every width, polynomial, initial value, final xor, both reflection flags, every message and every way to cut it in two blocks, whatever the widths of their register types and whatever the parameter words hold above bit `bits - 1` |
| `CrcFrames.FrameVerifies` | thirdparty/boost_1_68_0/boost/crc.hpp:814-823 | What the checksum is for, for all choices of reflection: the register after the message and the bits of its checksum, without the final xor and in the order of a reflected remainder, is zero; for an odd polynomial it is zero for no other trailer of that length |
| `CrcFrames.TrailerIsUniqueIffOdd` | thirdparty/boost_1_68_0/boost/crc.hpp:814-823 | No other trailer verifies, for any message, if and only if the truncated polynomial is odd |
| `CrcFrames.FrameOfBytes` | thirdparty/boost_1_68_0/boost/crc.hpp:984-995 | In bytes, for widths of whole bytes and odd polynomials: the frame of message and trailer leaves no remainder if and only if the trailer is the packed checksum |
| `CrcFrames.FrameResidue` | thirdparty/boost_1_68_0/boost/crc.hpp:984-995 | A frame with the checksum as it is, final xor included, leaves a remainder that is the same for all messages |
| `CrcFrames.StreamBit` | thirdparty/boost_1_68_0/boost/crc.hpp:765-797 | Which bit of which byte is fed when: bytes in order, each from the high end, or from the low end when input is reflected |
| `CrcTheorems.CatchesBurstsIffOdd` | thirdparty/boost_1_68_0/boost/crc.hpp:727-823 | Two messages of equal length, however short, that differ only inside at most `bits` consecutive bits (in processing order) always get different checksums if and only if the truncated polynomial is odd |
| `CrcTheorems.NamedTypesAndBursts` | thirdparty/boost_1_68_0/boost/crc.hpp:93-98 | The CRC-16, CCITT and CRC-32 types catch every such burst; the XMODEM type, whose constant 0x8408 is even, does not |
| `CrcTheorems.CompareAugmented` | thirdparty/boost_1_68_0/boost/crc.hpp:1043-1076 | In code, on one table: the plain CRC is the remainder of the message, the augmented CRC of the message and Bits/8 zero bytes is the same, and that of the message and its CRC, most significant byte first, is 0 |
| `CrcTheorems.AugmentedVerifies` | thirdparty/boost_1_68_0/boost/crc.hpp:1043-1076 | The augmented CRC of message and trailer is 0 if and only if the trailer is the plain CRC of the message, most significant byte first |
| `CrcTheorems.AugmentedOfZeroPadded` | thirdparty/boost_1_68_0/boost/crc.hpp:1043-1094 | Augmented CRC of the zero-padded message from any start word: the plain CRC from that word flushed through `bits` zero bits; from 0 the plain CRC itself |
| `Division.RemainderIsUnique` | thirdparty/boost_1_68_0/boost/crc.hpp:727-751 | A word is the register after a stream of bits if and only if some quotient recombines it with the generator into the shifted stream plus initial register: the register is the polynomial remainder over GF(2), defined by long division and not by steps |
| `Division.RegisterIsRemainder` | thirdparty/boost_1_68_0/boost/crc.hpp:727-751 | The bits fed out as division decisions are such a quotient |
| `Division.RecombinedInjective` | thirdparty/boost_1_68_0/boost/crc.hpp:727-751 | Quotient and remainder are determined by the dividend |
| `Remainder.RunLinear` | thirdparty/boost_1_68_0/boost/crc.hpp:727-751 | The register is linear over GF(2) in start register and stream together |
| `Remainder.RunAppend` | thirdparty/boost_1_68_0/boost/crc.hpp:784-812 | Feeding two streams in turn is feeding their concatenation |
| `Remainder.RunByTable` | thirdparty/boost_1_68_0/boost/crc.hpp:944-966 | k bits at once: the register shifted by k, xored with the remainder of its own top k bits xored with the stream |
| `Remainder.OwnTopShiftsOut` | thirdparty/boost_1_68_0/boost/crc.hpp:944-966 | A register fed its own top k bits is just shifted |
| `Remainder.ZerosKeepNonzero` | thirdparty/boost_1_68_0/boost/crc.hpp:727-751 | For an odd polynomial zero bits never take a nonzero register to zero |
| `Remainder.BurstChangesRemainder` | thirdparty/boost_1_68_0/boost/crc.hpp:727-823 | For an odd polynomial streams that differ in a window of `bits` bits leave different registers |
| `Remainder.EvenPolynomialMissesBurst` | thirdparty/boost_1_68_0/boost/crc.hpp:95-95 | For every even polynomial, start register and position there are two streams that differ in such a window and leave the same register |
| `Remainder.DetectsBurstsIffOdd` | thirdparty/boost_1_68_0/boost/crc.hpp:727-823 | Burst detection of the register, for all streams, if and only if the polynomial is odd |
| `Augmented.AugmentedIsPlain` | thirdparty/boost_1_68_0/boost/crc.hpp:1064-1073 | Bit level: the augmented register after a stream and `bits` zero bits is the plain register from the flushed start |
| `Augmented.AugmentedChecks` | thirdparty/boost_1_68_0/boost/crc.hpp:1064-1073 | Bit level: the augmented register after stream and trailer is zero if and only if the trailer is the plain register, highest bit first |
| `Augmented.FlushRun` | thirdparty/boost_1_68_0/boost/crc.hpp:1064-1073 | Flushing the augmented register through zeros turns augmented runs into plain runs |
| `Augmented.AugRunByTable` | thirdparty/boost_1_68_0/boost/crc.hpp:1069-1072 | A whole chunk of augmented steps as one shift, one insertion and the remainder of the bits shifted out |
| `CrcEngines.Reflect` | thirdparty/boost_1_68_0/boost/crc.hpp:306-326 | The loop reverses the low `bits` bits and clears the others |
| `CrcEngines.CrcBasic.constructor` | thirdparty/boost_1_68_0/boost/crc.hpp:630-644 | Starts with the initial remainder in the register |
| `CrcEngines.CrcBasic.ProcessBit` | thirdparty/boost_1_68_0/boost/crc.hpp:727-751 | One division step on the low `bits` bits, whatever the register holds above them |
| `CrcEngines.CrcBasic.ProcessBits` | thirdparty/boost_1_68_0/boost/crc.hpp:753-770 | Feeds the low bit_count bits of a byte, highest first |
| `CrcEngines.CrcBasic.ProcessByte` | thirdparty/boost_1_68_0/boost/crc.hpp:772-782 | Feeds a byte, reversed when input is reflected |
| `CrcEngines.CrcBasic.ProcessBlock` | thirdparty/boost_1_68_0/boost/crc.hpp:784-797 | Feeds the bytes in order |
| `CrcEngines.CrcBasic.GetInterimRemainder` | thirdparty/boost_1_68_0/boost/crc.hpp:696-704 | The register without the bits above `bits` |
| `CrcEngines.CrcBasic.Reset` | thirdparty/boost_1_68_0/boost/crc.hpp:717-725 | The register is the initial remainder again |
| `CrcEngines.CrcBasic.ResetTo` | thirdparty/boost_1_68_0/boost/crc.hpp:706-715 | The register is the given remainder |
| `CrcEngines.CrcBasic.Checksum` | thirdparty/boost_1_68_0/boost/crc.hpp:814-823 | The finished register, without the bits above `bits` |
| `CrcEngines.CrcTable.InitTable` | thirdparty/boost_1_68_0/boost/crc.hpp:488-536 | Ends when the byte counter wraps, with every one of the 256 slots filled: slot i holds the (reflected) register of eight steps from 0 on the bits of (reflected) i |
| `CrcEngines.CrcTable.FillSlot` | thirdparty/boost_1_68_0/boost/crc.hpp:507-531 | One dividend fills its own slot and spoils no slot filled before |
| `CrcEngines.CrcTable.Divide` | thirdparty/boost_1_68_0/boost/crc.hpp:507-528 | Eight division steps from 0 on the dividend, highest bit first |
| `CrcEngines.SlotOfIsInvolution` | thirdparty/boost_1_68_0/boost/crc.hpp:530-533 | Reflecting a byte twice gives it back, so the dividends reach every slot |
| `CrcEngines.CrcTable.Lookup` | thirdparty/boost_1_68_0/boost/crc.hpp:962-964 | In a filled table the slot of any index byte exists and holds the right entry |
| `CrcEngines.IndexUnreflected` | thirdparty/boost_1_68_0/boost/crc.hpp:540-616 | The unreflected index is the byte xored with the top bits of the register, for widths below, at and above 8 |
| `CrcEngines.IndexReflected` | thirdparty/boost_1_68_0/boost/crc.hpp:576-578 | The reflected index is the byte xored with the mirror image of those bits |
| `CrcEngines.TableStep` | thirdparty/boost_1_68_0/boost/crc.hpp:955-965 | One table step is eight bit steps; a reflected register stays the mirror image of the plain one and never has bits above `bits` |
| `CrcEngines.CrcOptimal.constructor` | thirdparty/boost_1_68_0/boost/crc.hpp:832-843 | Reflects the initial remainder when needed and fills the table |
| `CrcEngines.CrcOptimal.Reset` | thirdparty/boost_1_68_0/boost/crc.hpp:918-929 | The plain register is the given remainder |
| `CrcEngines.CrcOptimal.ProcessBlock` | thirdparty/boost_1_68_0/boost/crc.hpp:944-966 | The plain register after a block is that of the bit-at-a-time run |
| `CrcEngines.CrcOptimal.ProcessByte` | thirdparty/boost_1_68_0/boost/crc.hpp:931-942 | The same for one byte |
| `CrcEngines.CrcOptimal.GetInterimRemainder` | thirdparty/boost_1_68_0/boost/crc.hpp:905-916 | The unreflected register |
| `CrcEngines.CrcOptimal.Checksum` | thirdparty/boost_1_68_0/boost/crc.hpp:984-995 | The finished register, reflected exactly when output and input reflection differ |
| `CrcTheorems.Simple` | thirdparty/boost_1_68_0/boost/crc.hpp:784-823 | The bit-at-a-time computer from parameters to checksum, in a register type of any sufficient width |
| `CrcTheorems.Fast` | thirdparty/boost_1_68_0/boost/crc.hpp:944-995 | The table-driven computer from parameters to checksum, fed two blocks |
| `CrcTheorems.Crc` | thirdparty/boost_1_68_0/boost/crc.hpp:1025-1040 | The one-call function returns that checksum |
| `CrcTheorems.AugmentedCrc` | thirdparty/boost_1_68_0/boost/crc.hpp:1045-1076 | The loop over the bytes is the augmented run over the bits |
| `CrcTheorems.AugmentedTableStep` | thirdparty/boost_1_68_0/boost/crc.hpp:1069-1072 | One round of that loop is eight augmented bit steps |
| `CrcTheorems.FinishInjective` | thirdparty/boost_1_68_0/boost/crc.hpp:821-822 | Final reflection and xor lose nothing |
| `CrcTheorems.StreamInjective` | thirdparty/boost_1_68_0/boost/crc.hpp:772-797 | Different messages have different bit streams |
| `CrcTheorems.StreamOfPack` | thirdparty/boost_1_68_0/boost/crc.hpp:772-797 | Every bit stream of whole bytes is that of some message |
| `PoolTheorems.NoLostWakeup` | thirdparty/clib/ctpl_stl.h:172-231 | In every reachable state in which some worker sleeps, the queue is no longer than the pushes that have not notified yet plus the woken workers that have not looked at the queue yet, spurious wake-ups, shrinking and stopping included |
| `PoolTheorems.AllAsleepMeansNothingQueued` | thirdparty/clib/ctpl_stl.h:172-231 | When every live worker sleeps and no push is under way, the queue is empty |
| `PoolSleep.SleeperIsReachable` | thirdparty/clib/ctpl_stl.h:209-231 | A pool with one thread and nothing to do comes to sleep, counted as idle |
| `PoolSleep.IdleWorkerSleeps` | thirdparty/clib/ctpl_stl.h:224-228 | In any state, a worker that finds the queue empty, isDone and its flag not set, with the mutex free, is asleep after six steps of its own |
| `PoolSleep.SpuriousWakeupChangesNothing` | thirdparty/clib/ctpl_stl.h:227-227 | A sleeper woken for no reason, with nothing to do, is asleep again after five steps, and the pool is as it was |
| `PoolTheorems.RunsWholeQueue` | thirdparty/clib/ctpl_stl.h:214-223 | A worker that nobody disturbs runs everything that is queued, in order, three steps a task, without the mutex |
| `PoolTheorems.IdleCountIsExact` | thirdparty/clib/ctpl_stl.h:225-228 | nWaiting is the number of workers inside the wait section, in every reachable state |
| `PoolTheorems.TaskConservation` | thirdparty/clib/ctpl_stl.h:121-137 | In every reachable state each pushed task is in exactly one place, once: queued, held by one worker, completed, handed out by pop, deleted by clear_queue or by stop; none runs or is freed twice, and one that a worker holds is neither freed nor run yet |
| `PoolTheorems.PopHandsOutFirst` | thirdparty/clib/ctpl_stl.h:128-137 | pop hands out the task that was pushed first of those queued, deletes its functor, and changes nothing else |
| `PoolTheorems.ClearEmptiesQueue` | thirdparty/clib/ctpl_stl.h:121-126 | clear_queue, uninterrupted, deletes every queued task and records it as cleared |
| `PoolTheorems.FirstInFirstOut` | thirdparty/clib/ctpl_stl.h:44-69 | Tasks leave the queue in push order and none is skipped |
| `PoolTheorems.AtMostOneMoreTask` | thirdparty/clib/ctpl_stl.h:105-108 | Over any run, a worker whose stop flag is set takes at most one more task |
| `PoolTheorems.NoSleepAfterSignal` | thirdparty/clib/ctpl_stl.h:110-114 | A worker notified after its flag was set neither sleeps nor is about to |
| `PoolTheorems.AbortProgress` | thirdparty/clib/ctpl_stl.h:216-231 | Such a worker ends after at most fourteen steps of its own: each of them lowers its rank, and no step of anyone else moves it |
| `PoolOverlap.DroppedIffUnsafe` | thirdparty/clib/ctpl_stl.h:139-170 | The promise of stop(true) to run what is in the queue: no run to its return drops a queued task if and only if the pool has threads and not just a lone one that has found the queue empty and is about to read isDone, or it has none and a detached worker is about to pop that task |
| `PoolOverlap.CompletedIff` | thirdparty/clib/ctpl_stl.h:139-170 | On a pool never shrunk, with callers that take nothing out: a queued task is completed in every run to the return of stop(true) if and only if the pool has threads and not just a lone one that is leaving |
| `PoolOverlap.UnsafeIsDropped` | thirdparty/clib/ctpl_stl.h:161-167 | For every reachable state and every queued task outside that condition, a run in which stop(true) returns with the task deleted |
| `PoolDraining.SafeForCallers` | thirdparty/clib/ctpl_stl.h:180-231 | With two threads or more every queued task meets the condition, with one every task whose push has notified |
| `PoolDraining.DrainingStop` | thirdparty/clib/ctpl_stl.h:142-170 | When stop(true) has returned, every task pushed before the call that was not queued any more or met the condition is completed, unless a caller took it out or a thread detached by an earlier resize has it in hand |
| `PoolDraining.DrainingStopCompletes` | thirdparty/clib/ctpl_stl.h:139-170 | On a pool never shrunk, with callers that take nothing out, every task pushed before the call is completed when stop(true) has returned, unless it was queued behind a lone worker that was leaving |
| `PoolDraining.WatchedKept` | thirdparty/clib/ctpl_stl.h:157-169 | Every step keeps the watch on a task: while it is queued the stop waits for a thread that still has to look at the queue |
| `PoolOverlap.OverlappingPushIsDropped` | thirdparty/clib/ctpl_stl.h:180-231 | The failing case is reached: one worker has found the queue empty, a push queues a task behind it, and stop(true) returns with the task deleted unrun |
| `PoolOverlap.DetachedWorkerSavesTask` | thirdparty/clib/ctpl_stl.h:105-116 | So is the case without threads: after a resize to 0 a detached worker is about to pop, and no run drops the task |
| `PoolTheorems.NobodySleepsAfterDrainNotify` | thirdparty/clib/ctpl_stl.h:157-160 | After the notify_all of stop(true) no worker is or becomes asleep |
| `PoolResize.ResizeReturns` | thirdparty/clib/ctpl_stl.h:93-119 | When resize(n) has returned on a pool that was not stopped, it has n different threads, none ended and none told to, whatever workers and callers did meanwhile |
| `PoolResize.ResizeReturnsFromCall` | thirdparty/clib/ctpl_stl.h:93-119 | It returns: a run in which resize makes as many steps of its own as are known when it is called contains its return, with n threads |
| `PoolResize.ResizeProgress` | thirdparty/clib/ctpl_stl.h:93-119 | Each step of resize brings it closer to its return, no other step takes it further away |
| `PoolResize.ResizeNeverStuck` | thirdparty/clib/ctpl_stl.h:110-114 | Until it has returned it can make its next step, or, while it waits for the mutex, who holds the mutex can |
| `PoolShutdown.WorkNeverStuck` | thirdparty/clib/ctpl_stl.h:172-231 | In every reachable state with a queued task and a worker that has not ended, some worker, a push under way or the controller can make a step: no spurious wake-up, new push or call is needed |
| `PoolShutdown.StopProgress` | thirdparty/clib/ctpl_stl.h:142-170 | Once stop has told the workers to finish, every step except a new push makes a measure smaller |
| `PoolShutdown.NeverStuck` | thirdparty/clib/ctpl_stl.h:161-164 | Until stop has returned some worker, stop itself or a push holding the mutex can make a step |
| `PoolShutdown.StopReturnsFromCall` | thirdparty/clib/ctpl_stl.h:142-170 | The whole of a stop of either kind, from its call: a run without new pushes in which stop makes so many steps of its own and which then goes on for so long contains its return, with its mark set and no threads left; both numbers are known at the call |
| `PoolShutdown.AbortingStop` | thirdparty/clib/ctpl_stl.h:143-151 | stop(false): when it notifies and when it has returned, isStop is set and every task pushed before the call has left the queue |
| `PoolShutdown.StopLeavesNoThreads` | thirdparty/clib/ctpl_stl.h:157-169 | When a stop of either kind has returned its mark is set, the vectors are empty, every thread that was in them at the call has ended, and every other worker has ended or has been told to |
| `PoolTheorems.CallsAfterStop` | thirdparty/clib/ctpl_stl.h:93-155 | After a stop(false) a further stop(false) returns at once, after any stop so do stop(true) and resize |
| `PoolShutdown.LongRunsReturn` | thirdparty/clib/ctpl_stl.h:142-170 | The same from any point of a stop under way |
| `PoolShutdown.StopGetsToNotify` | thirdparty/clib/ctpl_stl.h:143-160 | That many steps of stop itself lead to the notify, whatever the workers do meanwhile |
| `PoolShutdown.PrepareProgress` | thirdparty/clib/ctpl_stl.h:143-151 | While it sets flags and clears the queue stop can always make a step, each brings it closer to the notify, and no step but a push takes it further away |
| `PoolShutdown.StopReturns` | thirdparty/clib/ctpl_stl.h:157-170 | From the notify on: any run without new pushes that is as long as the measure contains the return of stop |
| `PoolShutdown.MeasureIsNatural` | thirdparty/clib/ctpl_stl.h:142-170 | The measure is never negative |
| `PoolRuns.InvKept` | thirdparty/clib/ctpl_stl.h:93-231 | The invariant of the pool is kept by every step |
| `PoolRuns.ReachableInv` | thirdparty/clib/ctpl_stl.h:93-231 | So it holds in every reachable state |
| `PoolDraining.JoinedMeansTaken` | thirdparty/clib/ctpl_stl.h:161-167 | When every thread has been joined the watched task is no longer queued |
| `PoolInvariant.MutexKept` | thirdparty/clib/ctpl_stl.h:181-231 | The mutex is held by exactly the thread that is in a section that holds it |
| `PoolInvariant.WakeKeptW` | thirdparty/clib/ctpl_stl.h:214-231 | A worker's step keeps the wake-up bound |
| `PoolInvariant.WakeKeptX` | thirdparty/clib/ctpl_stl.h:180-182 | So does every step of a push, a pop, a spurious wake-up or a call |
| `PoolInvariant.ConservedKept` | thirdparty/clib/ctpl_stl.h:121-231 | Every step keeps each task in exactly one place |
| `PoolInvariant.AbortKept` | thirdparty/clib/ctpl_stl.h:105-231 | Every step keeps the bound on what a flagged worker still does |
| `CopierTheorems.NoSelfCopy` | TradeCopierMT5/PluginInstance.cpp:156-263 | After loading any list of rules, no deal is copied to the account that made it |
| `Copier.PluginInstance.OnDealPerform` | TradeCopierMT5/PluginInstance.cpp:156-189 | Appends one request per symbol configuration that matches the deal and finds a target, in list order; and keeps the plugin's invariant, by which no queued request goes to the account of its own deal |
| `Copier.PluginInstance.ParametersShow` | TradeCopierMT5/PluginInstance.cpp:216-264 | The tables become those of all rules loaded so far and these, in order; the manager account is the last one given |
| `Copier.PluginInstance.LoadRule` | TradeCopierMT5/PluginInstance.cpp:231-263 | One rule: the tables become those of one more rule, the index still leads from each mask to its place |
| `Copier.PluginInstance.UpdateTable` | TradeCopierMT5/PluginInstance.cpp:234-247 | A rule for a known symbol mask changes that table only, and nothing when rejected |
| `Copier.PluginInstance.AddTable` | TradeCopierMT5/PluginInstance.cpp:248-263 | A rule for a new symbol mask adds a table at the end, and none when rejected |
| `Copier.PluginInstance.PushCopy` | TradeCopierMT5/PluginInstance.cpp:168-186 | One configuration queues what its table yields, at most one request |
| `Copier.PluginInstance.constructor` | TradeCopierMT5/PluginInstance.cpp:66-70 | No rules, no requests |
| `Copier.SymbolConfig.InsertSymbolConfig` | TradeCopierMT5/Config.h:81-132 | Accepts exactly when the target's group matches the group mask and its login does not match the login mask, or the other way round; then the list changes as specified, otherwise not at all |
| `Copier.SymbolConfig.AddEntry` | TradeCopierMT5/Config.h:114-131 | A new group mask gets an entry at the end and an index, a known one gets one more login |
| `Copier.SymbolConfig.NewEntry` | TradeCopierMT5/Config.h:115-123 | The entry for a new mask: a new object at the end of the list, the index extended |
| `Copier.SymbolConfig.UpdateEntry` | TradeCopierMT5/Config.h:124-130 | One more login in the object at that position, all others untouched |
| `Copier.SymbolConfig.FindGroupConfig` | TradeCopierMT5/Config.h:166-177 | The index answers as a search through the list would |
| `Copier.SymbolConfig.SearchGroupConfig` | TradeCopierMT5/Config.h:143-157 | The first group that matches decides, found or not |
| `Copier.GroupConfig.SearchLogin` | TradeCopierMT5/Config.h:53-63 | The first login mask that matches |
| `Copier.GroupConfig.InsertGroupConfig` | TradeCopierMT5/Config.h:33-38 | One more login at the end |
| `Copier.IndexFinds` | TradeCopierMT5/Config.h:166-177 | An index that fits a list of masks finds what a search of the list finds, at the only place there is, and misses what the search misses; the same at both levels |
| `Copier.StaysIndexed` | TradeCopierMT5/Config.h:117-122 | Adding an entry at the end for a new mask, or changing entries in place, keeps the index fitting |
| `CopierRules.LongRoundTrip` | TradeCopierMT5/Config.h:86-86 | An account number survives the conversion from long to UINT64 and back |
| `CopierRules.ConversionsKeepNumber` | TradeCopierMT5/Config.h:86-86 | Each conversion keeps the number up to a multiple of the range of its result |
| `CopierRules.AcceptsExactlyOne` | TradeCopierMT5/Config.h:88-112 | A rule is accepted if and only if exactly one of its group mask and its login mask matches its own target |
| `Copier.TargetIsParameter` | TradeCopierMT5/PluginInstance.cpp:239-239 | The target loaded is the number in the parameter, up to a multiple of 2 to the power of 32 |
| `Copier.LastManagerCounts` | TradeCopierMT5/PluginInstance.cpp:220-225 | The manager account is that of the last parameter that gives one |
| `Copier.RequestsAreFor` | TradeCopierMT5/PluginInstance.cpp:183-183 | Each request names the manager account, the deal and its own target |
| `CopierTheorems.CopiedIff` | TradeCopierMT5/PluginInstance.cpp:156-263 | The whole copier in terms of its rules: a deal is copied to an account if and only if its reason is one of the seven and some symbol mask among the accepted rules matches it and, among the accepted rules with that mask, the earliest matching login under the group mask of the earliest matching group has that target |
| `CopierTheorems.CopyCount` | TradeCopierMT5/PluginInstance.cpp:156-189 | How often a deal is copied to an account: as often as there are symbol masks among the accepted rules that match the deal and choose that account, and never for another reason |
| `CopierTheorems.CopiesAre` | TradeCopierMT5/PluginInstance.cpp:168-186 | The copies of a deal as a list: one for each symbol mask that gives one, in the order in which accepted rules first used the masks, and no others |
| `CopierTheorems.TableGives` | TradeCopierMT5/PluginInstance.cpp:168-186 | One symbol table yields at most one copy, and that which the rules of its mask give |
| `Copier.OneParameter` | TradeCopierMT5/PluginInstance.cpp:227-263 | What one parameter does: a deal is copied to the account it names if and only if symbol, group and login match its three masks and exactly one of group mask and login mask matches that account |
| `CopierTheorems.LoadBuildsTablesOfAccepted` | TradeCopierMT5/PluginInstance.cpp:216-264 | After any rules the tables hold one entry per mask of the accepted rules, in order of first use, each with its own rules in load order; rejected rules leave no trace |
| `CopierTheorems.InsertKeepsGroups` | TradeCopierMT5/Config.h:114-131 | The step of that for one symbol mask |
| `CopierTheorems.InsertKeepsTables` | TradeCopierMT5/PluginInstance.cpp:233-263 | The step of that for the whole tables |
| `CopierTheorems.LookupIsFlat` | TradeCopierMT5/Config.h:143-157 | A lookup finds target t if and only if t is the target of the earliest accepted rule that has the same group mask as the earliest accepted rule with a matching group and a matching login mask: no fall-through to later groups |
| `CopierTheorems.SearchFindsEarliest` | TradeCopierMT5/Config.h:53-63 | Within one group mask the earliest accepted matching login is found, and none if there is none |
| `CopierTheorems.DecidingEntry` | TradeCopierMT5/Config.h:145-147 | The entry that decides belongs to the earliest rule with a matching group |
| `CopierTheorems.NoSelfTarget` | TradeCopierMT5/Config.h:81-157 | A table of accepted rules never leads from a login to itself |
| `CopierTheorems.ChosenForOwnTarget` | TradeCopierMT5/Config.h:88-112 | A rule that would be chosen for its own target is one the insertion test rejects |
| `CopierTheorems.CopiesCome` | TradeCopierMT5/PluginInstance.cpp:168-186 | Every copy comes from a table that matches the deal's symbol and finds its target |
| `XmlTheorems.EvaluatesToMeaning` | NordeaTest/NordeaTest/XMLProcessor.h:93-120 | Evaluating the tree of an arithmetic expression of any depth gives the value of the expression: sums, products, differences, and one truncated quotient of the sum of the dividends by the product of the divisors; no value exactly where the expression has none |
| `XmlTheorems.FoldIsFlat` | NordeaTest/NordeaTest/XMLProcessor.h:182-282 | On any children, known or unknown tags, literal or nested: add is the sum, mul the product, sub the difference of sums; a chain of truncating divisions is one truncating division of the sum of the dividends by the product of the divisors when the dividends come first |
| `XmlTheorems.OrderDoesNotMatter` | NordeaTest/NordeaTest/XMLProcessor.h:182-282 | Reordering the children never changes add, mul or sub; nor div as long as the dividends come first |
| `XmlTheorems.OrderMattersInDivision` | NordeaTest/NordeaTest/XMLProcessor.h:253-282 | That condition is needed: a concrete reordering that changes a quotient |
| `XmlTheorems.UndefinedIffBroken` | NordeaTest/NordeaTest/XMLProcessor.h:253-282 | An operation has no value if and only if one of its operands has none or one of its divisors is 0 |
| `XmlTheorems.LastInnerCounts` | NordeaTest/NordeaTest/XMLProcessor.h:93-120 | Of several inner expressions the last counts, and without any the value is 0 |
| `XmlTheorems.EveryInnerIsEvaluated` | NordeaTest/NordeaTest/XMLProcessor.h:93-120 | The value is missing if and only if one of the inner expressions, whichever, has none |
| `XmlTheorems.DividedIs` | NordeaTest/NordeaTest/XMLProcessor.h:269-279 | The quotient in the meaning is the number that leaves a remainder smaller than the divisor with the sign of the dividend |
| `XmlTheorems.OtherTagsDoNotMatter` | NordeaTest/NordeaTest/XMLProcessor.h:182-282 | Elements with other tags never change a result, at any depth |
| `XmlTheorems.OtherTagsInside` | NordeaTest/NordeaTest/XMLProcessor.h:93-120 | The same for the dispatch on the inner expression |
| `XmlTheorems.DivideAgain` | NordeaTest/NordeaTest/XMLProcessor.h:269-279 | Dividing a quotient again is dividing by the product, undefined cases included |
| `CppDivision.DivDiv` | NordeaTest/NordeaTest/XMLProcessor.h:269-279 | The truncated quotient of a truncated quotient is the truncated quotient by the product, for all signs |
| `CppDivision.TruncDivIsCpp` | NordeaTest/NordeaTest/XMLProcessor.h:273-277 | The model's quotient is the one number that leaves a remainder smaller than the divisor with the sign of the dividend |
| `XmlArithmetic.CallType` | NordeaTest/NordeaTest/XMLProcessor.h:93-120 | Evaluates every inner expression; the last one counts, 0 if there is none; terminates on the tree |
| `XmlArithmetic.ProcessAdd` | NordeaTest/NordeaTest/XMLProcessor.h:182-200 | The loop computes the fold over the items |
| `XmlArithmetic.ProcessMul` | NordeaTest/NordeaTest/XMLProcessor.h:202-220 | The loop computes the fold over the factors |
| `XmlArithmetic.ProcessSub` | NordeaTest/NordeaTest/XMLProcessor.h:222-251 | The loop computes the fold over minuends and subtrahends |
| `XmlArithmetic.ProcessDiv` | NordeaTest/NordeaTest/XMLProcessor.h:253-282 | The loop computes the fold over dividends and divisors |
| `XmlArithmetic.Number` | NordeaTest/NordeaTest/XMLProcessor.h:189-196 | The number in the text, or the inner expression when there is none |
| `OrderBook.MarketData.constructor` | OxamTest/OxamTest/MarketData.h:23-42 | After any file of events the fields show its history: live orders, prices, total time, weighted sum |
| `OrderBook.MarketData.InsertOrderEntry` | OxamTest/OxamTest/MarketData.h:58-67 | One more event in the history, the fields show it |
| `OrderBook.MarketData.EraseOrderEntry` | OxamTest/OxamTest/MarketData.h:69-95 | The same for an erase, of a live or an unknown order |
| `OrderBook.ShownAfterInsert` | OxamTest/OxamTest/MarketData.h:58-67 | The updates of an insert are right: the clock counts only time with orders in the book |
| `OrderBook.ShownAfterErase` | OxamTest/OxamTest/MarketData.h:81-94 | The updates of an erase are right: total_timestamp is the time with orders in the book plus the timestamps of erases that found it empty, for every run |
| `OrderBookTheorems.TotalIsNonEmptyTime` | OxamTest/OxamTest/MarketData.h:81-94 | Nothing is added to the time with orders in the book unless an erase finds it empty; with positive timestamps nothing is added if and only if none does, and never less than nothing |
| `OrderBookTheorems.EraseOnEmptyBookCounts` | OxamTest/OxamTest/MarketData.h:88-94 | One erase and no order: the total is the whole timestamp, the time with orders is 0 |
| `OrderBookTheorems.AverageIs` | OxamTest/OxamTest/MarketData.h:52-55 | In every run the average is the number that, times the total time, is the weighted sum, and there is none if and only if the total is 0 |
| `OrderBookTheorems.WeightedOfInserts` | OxamTest/OxamTest/MarketData.h:58-67 | In runs of inserts the weighted sum is the sum of each price times the time until the next event, and the total runs from the first event to the last |
| `OrderBookTheorems.WeightedGrowsBy` | OxamTest/OxamTest/MarketData.h:58-95 | In every run, what the time before an event adds: nothing without orders, the price of the erased order when it was the only one, else the price of the order that the event before inserted or erased |
| `OrderBookTheorems.BusyFromFirstToLast` | OxamTest/OxamTest/MarketData.h:61-84 | While the book is never empty in between, the time with orders runs from the first event to the last |
| `OrderBookTheorems.EmptyBookStartsAnew` | OxamTest/OxamTest/MarketData.h:88-94 | After events that leave the book empty orders, times and weighted sum start anew and add up |
| `OrderBookTheorems.LiveIffLastInserted` | OxamTest/OxamTest/MarketData.h:65-79 | An order is live at a price if and only if the last event that names it inserts it at that price |
| `OrderBookTheorems.AverageBetweenPrices` | OxamTest/OxamTest/MarketData.h:52-55 | With timestamps that never go back, the average lies between any bounds on the prices inserted (bounds that include 0 if some erase names an unknown order) |
| `OrderBookTheorems.WeightedWithin` | OxamTest/OxamTest/MarketData.h:58-95 | The weighted sum lies between the bounds times the total time |
| `OrderBookTheorems.TracksIffHarmless` | OxamTest/OxamTest/MarketData.h:65-79 | All through a run the price container holds exactly the prices of the live orders if and only if every insert has a new id and every order erased is the only one at its price |
| `OrderBookTheorems.HighIsRightIff` | OxamTest/OxamTest/MarketData.h:45-51 | In every run: the high price is the greatest price of a live order if and only if some insert at that price was not followed by an erase of an order at it, and every greater price inserted was |
| `OrderBookTheorems.HoldsWhatRemains` | OxamTest/OxamTest/MarketData.h:65-79 | In every run the container holds exactly the prices of which some insert was not followed by an erase of an order live at that price |
| `OrderBookTheorems.InvalidIffNothingRemains` | OxamTest/OxamTest/MarketData.h:45-51 | In every run: the high price is read from an empty container if and only if there is an order and every insert was followed by an erase at its price |
| `OrderBookTheorems.HighIsGreatest` | OxamTest/OxamTest/MarketData.h:45-51 | In runs that the container follows the high price is the greatest price of a live order, and NaN exactly without orders |
| `OrderBookTheorems.EqualPricesLoseTheHigh` | OxamTest/OxamTest/MarketData.h:73-79 | Two orders at one price, one erased: an order is left and the container is empty, so the high price is read from nowhere |
| `OrderBook.MarketData.GetHighPrice` | OxamTest/OxamTest/MarketData.h:45-51 | NaN, the last element, or the last element of an empty container, by the history |
| `OrderBook.MarketData.PrintWeightedPx` | OxamTest/OxamTest/MarketData.h:52-55 | The weighted sum by the total time, undefined for no time |
| `OrderBook.HasGreatest` | OxamTest/OxamTest/MarketData.h:50-50 | A container with elements has a greatest one |
| `Fills.FIXOrder.HandleFill` | thirdparty/clib/FIXOrder.h:77-86 | For any fill: average price times cumulative quantity stays the sum of price times volume as long as no fill leaves the quantity at 0; the fill that does makes the average infinite with the sign of that sum, or not a number for sum 0, and from the next fill on it is not a number; last quantity, price, remainder and id are those of the fill |
| `Fills.AverageAtZero` | thirdparty/clib/FIXOrder.h:82-83 | The average price is infinite exactly after the fill that left the quantity at 0 with money spent, with its sign, and not a number exactly when no money was, or a later fill followed |
| `Fills.FIXOrder.constructor` | thirdparty/clib/FIXOrder.h:44-76 | No quantity, no fills |
| `Fills.AverageBetweenPrices` | thirdparty/clib/FIXOrder.h:82-83 | After fills of positive volume there is an average price and it lies between any bounds on the fill prices |
| `Fills.PositiveNeverZero` | thirdparty/clib/FIXOrder.h:82-83 | Fills of positive volume never leave the quantity at 0 |
| `Fills.TurnoverWithin` | thirdparty/clib/FIXOrder.h:82-83 | The money lies between the bounds times the quantity, and the quantity is positive |
| `Fills.OrderOfFills` | thirdparty/clib/FIXOrder.h:82-83 | Quantity and money do not depend on the order of the fills |
| `Fills.AverageIgnoresOrder` | thirdparty/clib/FIXOrder.h:82-83 | Two orders with the same fills in any order have the same quantity, and the same average price where both have one; with positive volumes both have |
| `Subscriptions.TicksFollowLastWord` | PrimeXM_Price/Application.cpp:458-493 | A tick on a symbol goes out with id r if and only if the last handled entry on that symbol since the last logout is a subscribe with id r, accepted or not |
| `Subscriptions.AlwaysConsistent` | PrimeXM_Price/Application.cpp:347-437 | In every run the subscribed symbols exist, are marked true and have a request id |
| `Subscriptions.AcceptedIffChanges` | PrimeXM_Price/Application.cpp:347-434 | A subscribe or unsubscribe is accepted if and only if it changes whether its symbol is subscribed; it never changes that for another symbol |
| `Subscriptions.AcceptedRequest` | PrimeXM_Price/Application.cpp:298-437 | After an accepted request every symbol it names is subscribed and gets ticks under its id, or is neither any more, and all other symbols are as before; a snapshot changes nothing |
| `Subscriptions.ReasonOfRejection` | PrimeXM_Price/Application.cpp:347-434 | Which reject text a subscribe or unsubscribe gets, by whether its symbol is known and subscribed, and when it gets none |
| `Subscriptions.AgreementIffHarmless` | PrimeXM_Price/Application.cpp:213-229 | All through a run the subscribed symbols are exactly those that get ticks if and only if no subscribe names an unknown symbol and no logon finds a feed from before |
| `Subscriptions.StaysInAgreement` | PrimeXM_Price/Application.cpp:349-369 | The same for one entry |
| `Subscriptions.RejectedRequestLeavesFeed` | PrimeXM_Price/Application.cpp:298-437 | A rejected request leaves the feed as it was if and only if its first symbol is the one rejected and that one has no request id to change: the symbols before the rejected one stay subscribed or unsubscribed |
| `Subscriptions.RejectedLeavesFeed` | PrimeXM_Price/Application.cpp:347-434 | One rejected symbol leaves the feed as it was if and only if it is a subscribe under the id the symbol has already, or an unsubscribe for a symbol without an id; it never changes the subscriptions |
| `Subscriptions.AcceptedStaysChanged` | PrimeXM_Price/Application.cpp:331-436 | What the first symbol of a request changes by being accepted no later symbol of the request undoes |
| `Subscriptions.RejectedRequestSubscribes` | PrimeXM_Price/Application.cpp:353-366 | An input: a request for A and B is rejected for B, under the id B has, and subscribes A |
| `Subscriptions.LogonKeepsTicks` | PrimeXM_Price/Application.cpp:213-218 | An input: after a subscribe and a logon the symbol is no longer subscribed and keeps its request id |
| `Subscriptions.RejectedUnsubscribeEndsTicks` | PrimeXM_Price/Application.cpp:391-415 | The unsubscribe that follows is rejected, and removes the request id |
| `Subscriptions.RejectedRequestTakesOver` | PrimeXM_Price/Application.cpp:349-366 | A second subscribe for a symbol is rejected, yet its id takes over the ticks |
| `Subscriptions.Application.OnMessage` | PrimeXM_Price/Application.cpp:298-437 | Handles the symbols of a request in order up to the first that gives a problem, sends one reject for that one with its text and none otherwise |
| `Subscriptions.Application.AskSymbol` | PrimeXM_Price/Application.cpp:347-434 | One symbol: the request id changes first, then the subscription, with the reject text the code sends |
| `Subscriptions.Application.OnTick` | PrimeXM_Price/Application.cpp:458-494 | A tick goes out with the request id of its symbol, or not at all |
| `Subscriptions.Application.OnLogon` | PrimeXM_Price/Application.cpp:213-218 | Forgets the subscriptions and keeps the request ids |
| `Subscriptions.Application.OnLogout` | PrimeXM_Price/Application.cpp:219-229 | Forgets both |
| `Subscriptions.Application.constructor` | PrimeXM_Price/Application.cpp:107-115 | No feed |

## Left out

- Operating system and library calls (MetaTrader API, QuickFIX, websocketpp, Winsock, HTTP, Windows services, files, console): parameters where a decision depends on them (mask match, user group, symbol exists), otherwise absent.
- The other Boost and asio headers, and the web socket servers: only easy statements remain there.
- C++ integer types of the CRC registers appear only as their widths; `init_table`'s guard belongs to a table object instead of to a template instance.
- The pool's queue and vectors are values in a step relation, not objects updated in place; `threads` grows with each spawned thread instead of once before.
- Exceptions thrown by tasks, `std::future` values, the effects of tasks, and a pool destroyed while detached workers still run are not modelled; `pop` and `clear_queue` on an empty queue are no steps.
- Overlapping calls of `resize` and `stop`, which the code forbids, and of two calls of `stop`, which it does not: a call starts only when the one before has returned.
- PoolDraining.DrainingStop: promises nothing for tasks pushed after the call of `stop`.
- PoolShutdown.StopReturnsFromCall: bounds runs without new pushes; a scheduler that never lets a thread move, and tasks that never end, are outside the model.
- The trade copier's parameters come already split; fewer fields than the code reads, a failing `stoul` and a failing `UserGet` are not modelled, and the group of a user does not change.
- CopierTheorems.NoSelfCopy: is about one deal; copies may themselves be deals that are copied on.
- Copier.PluginInstance.OnDealPerform: queues the deal itself; the code queues a bare pointer to a copy of the deal whose owner releases it at the end of the block, and what a later reader of that pointer finds is not modelled.
- The locks of the rule tables, and their printing.
- Copier.SymbolConfig.FindGroupConfig: the position is arbitrary when nothing is found, since the code then reads past the end and its callers ignore it.
- Integer overflow in the evaluator: numbers are mathematical integers; a division by zero is an explicit lack of a value.
- The lookup of the expressions in the document and the printing of the results.
- Rounding of floating point numbers in the order book and the fills: prices are real numbers.
- `printWeightedPx` as an average of the highest price over time: the code weights with the price of the last event.
- Fills.FIXOrder.HandleFill: has no negative zero, so a volume of -0.0 counts as 0.
- Orders that start with a quantity already filled.
- Market data requests whose entry count differs from the number of entries, and failures while sending a reject.
