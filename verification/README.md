# Hydrosphère, verified

A Dafny model of the parts of Hydrosphère whose correctness is hard to see by reading: the
user-space lock protocol and the primitives built on it, the printf formatter, the address
space allocator, and the intrusive ring list.

**The lock and its clients.** `LockProtocol` is a step machine over any number of threads with
one step per compare-exchange or system call: `CriticalSection`, and `ConditionVariableImpl`
on top of it. The kernel is not part of the repository; its contract is stated as steps of the
environment and kept as loose as the code allows. `ArbitrateLock` sleeps only if the word is
still the owner with the listener bit. `ArbitrateUnlock` and the release inside
`WaitProcessWideKeyAtomic` hand the word to a sleeper of the kernel's choice, with the bit if
others sleep, or clear it. `SignalProcessWideKey` moves up to n waiters of its choice, each of
which is granted a free word or queued on it with the bit set. A timeout may strike a waiter
before or after it was moved. `Barrier`, `UserEvent` and `ThreadLifecycle` are step machines
of the same grain that use the lock only through its operations; `BarrierProgress`,
`UserEventProgress` and `ThreadProgress` give the runs in which their calls return.

Each machine comes with the source's functions in their own form (`LockCode`, `BarrierCode`,
`UserEventCode`, `ThreadCode`): classes with the source's fields, whose methods run one thread's
call statement by statement while an arbitrary schedule lets the other threads take any
enabled steps in between. Every such call is proved to be a run of the machine (`Valid()`), so
the theorems about reachable states are theorems about the code. A call whose finite schedule
runs out returns early and says so.

**The formatter.** `Output` is the buffer behind `str`, `len` and `size`; `FmtStr`, `FmtInt`,
`FmtFlt` and the seven-state scanner are methods over it, each proved to append a text given by
a function: `StrText`, `IntText`, `FloatText`, `Formatted`. What those texts mean is proved
about the functions: what they look like character by character, which number they denote to a
reader, how formats are parsed, and what whole formats print. Floating point values are exact reals.

**The allocator and the list.** `VirtualMemoryAllocator.Reserve` is the loop of the source over
a map of the kernel's memory blocks; the mask expressions are bitwise operations. The list is a
heap of elements with `prev` and `next` pointers, described by the predicate `Ring` on the
sequence of elements; its `modifies` clauses name the pointers that are written, so every other
ring is untouched.

Where the code and its comments differ, the code is followed. Findings that are proved as such:
the wait loop of the thread entry wrapper is dead code; SignalUserEvent wakes one waiter of a
manual-reset event, and the others sleep on until it is cleared and signalled anew; fmtint()
subtracts separators twice, so that a field with separators and a precision beyond the digits can
fall short, and so can the digits themselves; a value that rounds up to 1e100 in the style of %e
is printed with the exponent 00; Reserve compares the size with the whole block and can reserve
beyond its end, from some position exactly if some candidate leaves too little of its block; and a
request repeated on an unchanged map is given the same range again exactly if the search goes back
to the start and finds it first. Each comes with the condition under which the code does what one
would expect, and with an input for which it does not.

## Model

| member | source | states |
|---|---|---|
| LockWord.WordFacts | libhydrosphere/source/common/os/os_critical_section.cpp:15-15 | the owner and the listener bit of a lock word determine each other and the word |
| LockWord.ListenerBit | libhydrosphere/source/common/os/os_critical_section.cpp:15-15 | the listener bit is bit 30 of the word, and the owner is what is left without it |
| LockProtocol.StepKeeps | libhydrosphere/source/common/os/os_critical_section.cpp:18-83 | every step of any thread, including waits, timeouts and signals, keeps the invariant of word, owners, sleepers and stale observations |
| LockProtocol.RunKeeps | libhydrosphere/source/common/os/os_critical_section.cpp:18-83 | so does every run |
| LockProtocol.MutualExclusion | libhydrosphere/source/common/os/os_critical_section.cpp:18-83 | in every reachable state at most one thread is inside, and the word is its handle, with or without the listener bit |
| LockProtocol.NeverListenersAlone | libhydrosphere/source/common/os/os_critical_section.cpp:15-83 | the word is never the listener bit alone, and a nonzero word names a thread that is inside, or that was handed the lock and is about to find itself the owner in its next exchange |
| LockProtocol.NoLostWakeup | libhydrosphere/source/common/os/os_critical_section.cpp:21-53 | a sleeper on the lock implies the word is a different owner with the listener bit, who has yet to take the arbitrated way out |
| LockProtocol.FreeMeansNoSleepers | libhydrosphere/source/common/os/os_critical_section.cpp:74-83 | a zero word means nobody sleeps on the lock or is inside |
| LockProtocol.SoloEnter | libhydrosphere/source/common/os/os_critical_section.cpp:21-53 | a runnable thread in Enter that runs alone on a free lock owns it within two of its own steps, from any point of Enter |
| LockProtocol.SoloBlocks | libhydrosphere/source/common/os/os_critical_section.cpp:21-53 | alone on a lock another thread owns it does not spin: within four of its own steps it sleeps, and all that has changed is that the word carries bit 30 |
| LockProtocol.Drain | libhydrosphere/source/common/os/os_critical_section.cpp:74-83 | no sleeper is stranded: from every state a run exists in which only the owner of the moment moves, finishing Enter or leaving, and which ends with the word zero and the lock's queue empty, and no waiter of the condition variable touched |
| LockProtocol.OwnerAdvances | libhydrosphere/source/common/os/os_critical_section.cpp:74-83 | an owner is never blocked on its way out: each of its steps brings it closer to the release, frees the word, or takes one sleeper off the queue |
| LockProtocol.AcquireEndsHolding | libhydrosphere/source/common/os/os_condition_variable_impl.cpp:27-49 | a thread that was acquiring and is no longer acquiring owns the lock, one step at a time |
| LockProtocol.AcquireOverRun | libhydrosphere/source/common/os/os_condition_variable_impl.cpp:27-49 | and over every run: whatever interferes, a wait or timed wait ends in possession of the lock |
| LockProtocol.WaitReleasesAndEnqueues | libhydrosphere/source/common/os/os_condition_variable_impl.cpp:27-32 | release and enqueueing are one step: the waiter is queued, has lost the word, and the next sleeper has it |
| LockProtocol.SignalMovesExactly | libhydrosphere/source/common/os/os_condition_variable_impl.cpp:19-25 | a signal takes exactly min(n, waiting) threads off the queue, all of them for a broadcast, and the owner stays the owner |
| LockProtocol.ThreadMoves | libhydrosphere/source/common/os/os_critical_section.cpp:18-83 | all that any step can do to another thread: nothing, waking it from the lock, or moving it off the condition variable |
| LockCode.CriticalSection.IsReachable | libhydrosphere/source/common/os/os_critical_section.cpp:18-83 | every state a call leads to is reachable in the protocol, so that all of the above holds of it |
| LockCode.CriticalSection.ExchangeToEnter | libhydrosphere/source/common/os/os_critical_section.cpp:22-36 | the first exchange and the two tests behind it, as one step of the protocol |
| LockCode.CriticalSection.ExchangeToMark | libhydrosphere/source/common/os/os_critical_section.cpp:42-45 | the exchange succeeds exactly on the word that was observed, sets bit 30 there, and changes nothing otherwise |
| LockCode.CriticalSection.Contend | libhydrosphere/source/common/os/os_critical_section.cpp:36-52 | a lost attempt ends before the first exchange again, or asleep |
| LockCode.CriticalSection.Enter | libhydrosphere/source/common/os/os_critical_section.cpp:18-54 | under every schedule Enter is a run of the protocol, and when it returns the caller owns the lock |
| LockCode.CriticalSection.TryEnter | libhydrosphere/source/common/os/os_critical_section.cpp:56-72 | returns in one exchange: with the lock, or with another thread owning it |
| LockCode.CriticalSection.Leave | libhydrosphere/source/common/os/os_critical_section.cpp:74-83 | afterwards the caller is not the owner; cut short, it still is |
| LockCode.CriticalSection.IsLockedByCurrentThread | libhydrosphere/source/common/os/os_critical_section.cpp:85-88 | true for the thread inside and false for every thread outside |
| LockCode.CriticalSection.Signal | libhydrosphere/source/common/os/os_condition_variable_impl.cpp:19-21 | takes exactly one waiter off a nonempty queue |
| LockCode.CriticalSection.Broadcast | libhydrosphere/source/common/os/os_condition_variable_impl.cpp:23-25 | leaves the queue empty |
| LockCode.CriticalSection.Wait | libhydrosphere/source/common/os/os_condition_variable_impl.cpp:27-32 | returns only with the lock owned again, and only after a signal that names the caller; the wait is one without a timeout |
| LockCode.CriticalSection.WaitTimeout | libhydrosphere/source/common/os/os_condition_variable_impl.cpp:34-49 | signalled or timed out, the caller owns the lock when the call returns; the result is false if and only if the timeout struck during the call, and true only after a signal that names the caller |
| Barrier.StepKeeps | libhydrosphere/source/common/os/os_barrier_api.cpp:27-39 | every step keeps the invariant: the count is the arrivals, and as many threads as that, or as that less N, are counted but not let through |
| Barrier.OnlyTheFirstN | libhydrosphere/source/common/os/os_barrier_api.cpp:27-39 | over every run, a thread that gets past the barrier arrived among the first N, and N have arrived |
| Barrier.QueueWhenFree | libhydrosphere/source/common/os/os_barrier_api.cpp:27-39 | with the lock free the queue holds all arrivals if they are fewer than N and exactly the late ones otherwise, so all of the first N have been released and no late one ever is; with N zero all arrivals wait and nobody is released |
| Barrier.BroadcastOnce | libhydrosphere/source/common/os/os_barrier_api.cpp:32-33 | the broadcast is the N-th arrival's, happens once, and finds the other N - 1 queued |
| BarrierProgress.FirstNReturn | libhydrosphere/source/common/os/os_barrier_api.cpp:27-39 | from every reachable state in which N threads have arrived, a run exists without any new call at whose end the lock is free and every one of the first N arrivals has returned |
| BarrierCode.Barrier.constructor | libhydrosphere/source/common/os/os_barrier_api.cpp:19-25 | a fresh barrier, for any number of threads to wait for and for none, is an initial state of the machine |
| BarrierCode.Barrier.Increment | libhydrosphere/source/common/os/os_barrier_api.cpp:30-30 | load and store are two steps, with other threads in between, and give the arrival a number above all earlier ones |
| BarrierCode.Barrier.AwaitBarrier | libhydrosphere/source/common/os/os_barrier_api.cpp:27-39 | under every schedule the call is a run of the machine and a new arrival, and it returns only if that was among the first N and N have arrived |
| UserEvent.StepKeeps | libhydrosphere/source/common/os/os_userevent_api.cpp:32-74 | every step keeps conservation of signals, attendance of waiters, the count of those a raise leaves waiting, and what a thread has read under the lock |
| UserEvent.SignalsConserved | libhydrosphere/source/common/os/os_userevent_api.cpp:32-74 | over every run of an auto-clear event: delivered or on the way, plus cleared, plus up now, equals raised plus up initially; at most one delivery is on the way |
| UserEvent.NoLostWakeup | libhydrosphere/source/common/os/os_userevent_api.cpp:32-68 | with the lock free and the signal of an auto-clear event up, nobody is waiting, even if others stole earlier signals |
| UserEvent.WaitersLeft | libhydrosphere/source/common/os/os_userevent_api.cpp:32-68 | with the lock free and the signal up, all who waited when it was raised last still wait, but for one; so nobody waits if and only if there was at most one |
| UserEvent.AsleepUntilClear | libhydrosphere/source/common/os/os_userevent_api.cpp:32-74 | those left waiting for a manual-reset event stay asleep over every run without a ClearUserEvent, however often it is signalled again |
| UserEvent.WaitTakesTheSignal | libhydrosphere/source/common/os/os_userevent_api.cpp:35-41 | a wait leaves its loop only with the signal up, finds it up in the second test, and takes that signal exactly if the event clears itself |
| UserEvent.QueryTakesTheSignal | libhydrosphere/source/common/os/os_userevent_api.cpp:46-57 | a query finds the signal as it loaded it, takes it if it is up and the event clears itself, and otherwise leaves the event as it is |
| UserEventProgress.CallsReturn | libhydrosphere/source/common/os/os_userevent_api.cpp:32-74 | from every reachable state a run exists without any new call at whose end the lock is free and every call has returned or waits for a signal; nobody waits if an auto-clear event is up then, and if a manual-reset event is up and not about to be cleared, exactly those wait whom its raise left behind |
| UserEventProgress.WaiterLeftBehind | libhydrosphere/source/common/os/os_userevent_api.cpp:59-68 | such a waiter exists: a reachable state of a manual-reset event with the lock free, the signal up and a thread asleep |
| UserEventCode.UserEvent.constructor | libhydrosphere/source/common/os/os_userevent_api.cpp:19-26 | initialisation leaves is_signaled at whatever it was |
| UserEventCode.UserEvent.WaitUserEvent | libhydrosphere/source/common/os/os_userevent_api.cpp:32-44 | under every schedule a run of the machine; a call that returns went through the state behind the loop, with the signal cleared exactly for auto-clear |
| UserEventCode.UserEvent.IsUserEventSignaled | libhydrosphere/source/common/os/os_userevent_api.cpp:46-57 | likewise; the result is the signal at the time of the load, and the store leaves an auto-clear event down and any other as it was |
| UserEventCode.UserEvent.SignalUserEvent | libhydrosphere/source/common/os/os_userevent_api.cpp:59-68 | likewise; the call went through the state of its test, which sent it to its Leave if the signal was up; and if the signal was down, through one in which it had raised it and was about to wake a waiter |
| UserEventCode.UserEvent.ClearUserEvent | libhydrosphere/source/common/os/os_userevent_api.cpp:70-74 | likewise; the signal was down |
| ThreadLifecycle.StepKeeps | libhydrosphere/source/common/os/os_thread_api.cpp:26-250 | every step of the wrapper and of any number of callers keeps the invariant, half-done updates included |
| ThreadLifecycle.EntrypointAtMostOnce | libhydrosphere/source/common/os/os_thread_api.cpp:36-52 | the entrypoint runs at most once, only with the state Started, and never if DestroyThread came first; once the thread is gone it has run exactly once otherwise |
| ThreadLifecycle.ExitedAfterWait | libhydrosphere/source/common/os/os_thread_api.cpp:120-135 | once WaitForExitThread has returned the kernel thread is gone and the wrapper finished; the state is Exited as long as the handle is open |
| ThreadLifecycle.ExitedUntilReset | libhydrosphere/source/common/os/os_thread_api.cpp:189-221 | from then on only the last statement of DestroyThread changes the state |
| ThreadLifecycle.MirrorUnmappedOnce | libhydrosphere/source/common/os/os_thread_api.cpp:204-213 | the stack mirror is unmapped at most once and only after the kernel thread is gone, and the flag agrees whenever the lock is free |
| ThreadLifecycle.UnmapIsSafe | libhydrosphere/source/common/os/os_thread_api.cpp:234-250 | the unmapping call finds the mirror mapped and the thread gone; the handle is closed with the mirror unmapped |
| ThreadLifecycle.WrapperNeverWaits | libhydrosphere/source/common/os/os_thread_api.cpp:38-42 | the wrapper's wait loop is never entered, and the condition variable never has a waiter |
| ThreadLifecycle.BlockedWaitEnds | libhydrosphere/source/common/os/os_thread_api.cpp:124-131 | a wait under way can end with success exactly if the kernel thread is gone, whether or not the handle has been closed since |
| ThreadProgress.InitTidy | libhydrosphere/source/common/os/os_thread_api.cpp:137-160 | a created thread has no abort ahead |
| ThreadProgress.CallsInOrder | libhydrosphere/source/common/os/os_thread_api.cpp:189-250 | which calls lead to no abort: StartThread once, while no other call is about to start the thread; one DestroyThread, not beside such a StartThread; WaitThread as long as the handle is open |
| ThreadProgress.ThreadEndsAndCallsReturn | libhydrosphere/source/common/os/os_thread_api.cpp:26-250 | from every reachable state with no abort ahead and the thread started or about to be, a run exists without any new call at whose end the wrapper has ended, the entrypoint has run as often as it should, and every StartThread, WaitThread and DestroyThread has returned |
| ThreadCode.Thread.ThreadEntryWrapper | libhydrosphere/source/common/os/os_thread_api.cpp:26-65 | under every schedule a run of the machine that ends with the kernel thread gone, the state Exited or already reset, and the entrypoint run once, or not at all if DestroyThread came first |
| ThreadCode.Thread.TestState | libhydrosphere/source/common/os/os_thread_api.cpp:38-42 | the loop is left at once |
| ThreadCode.Thread.WaitSynchronization | libhydrosphere/source/common/os/os_thread_api.cpp:124-131 | the call and the return are two steps: it ends with success, which means that the kernel thread is gone, or cancelled; and if it does not end, the schedule ran out or it aborted the program on a closed handle |
| ThreadCode.Thread.WaitForExitThread | libhydrosphere/source/common/os/os_thread_api.cpp:120-135 | retries cancelled waits and returns only with the kernel thread gone; cut short, it was by the schedule or by an abort on a closed handle |
| ThreadCode.Thread.UnmapIfMapped | libhydrosphere/source/common/os/os_thread_api.cpp:204-213 | the mirror is unmapped afterwards, by this call or an earlier one |
| ThreadCode.Thread.StartThread | libhydrosphere/source/common/os/os_thread_api.cpp:223-232 | a call that returns went through the state Started, under the lock, before it signalled |
| ThreadCode.Thread.WaitThread | libhydrosphere/source/common/os/os_thread_api.cpp:234-250 | a call that returns went through a state with the kernel thread gone, the mirror unmapped exactly once, and the state Exited unless the handle was closed |
| ThreadCode.Thread.DestroyThread | libhydrosphere/source/common/os/os_thread_api.cpp:189-221 | a call that returns went through a state with the thread reset, the handle closed, the mirror unmapped and the kernel thread gone |
| PrintfOutput.Output.OutChar | libhydrosphere/external/source/snprintf.c:544-549 | a character extends the size-independent text by one and the buffer stays the part of it that fits, with all other bytes as before |
| PrintfOutput.Output.Pad | libhydrosphere/external/source/snprintf.c:987-990 | the padding loops append as many characters as asked for, none if negative |
| PrintfOutput.FmtStr | libhydrosphere/external/source/snprintf.c:967-999 | appends StrText, whatever the size |
| PrintfOutput.StrField | libhydrosphere/external/source/snprintf.c:967-999 | the field is max(width, shown) wide, its content the first min(length, precision) characters at the left or right end, and blanks otherwise |
| PrintfDigits.Convert | libhydrosphere/external/source/snprintf.c:1445-1458 | the buffer holds the lowest digits up to its size, and all digits of the value reversed if they fit |
| PrintfDigits.DigitsValue | libhydrosphere/external/source/snprintf.c:1445-1458 | evaluating the digits gives the value back, in every base and case |
| PrintfDigits.DigitsCanonical | libhydrosphere/external/source/snprintf.c:1445-1458 | no superfluous leading zero: the first digit is zero only for zero |
| PrintfDigits.ConvertFits | libhydrosphere/external/source/snprintf.c:1445-1458 | a 64-bit value has at most 22, 20 or 16 digits and never reaches the end of the 43 byte buffers |
| PrintfDigits.GetNumSep | libhydrosphere/external/source/snprintf.c:1406-1411 | the number n of separators is the one with 3n < digits <= 3n + 3 |
| PrintfDigits.GroupedCount | libhydrosphere/external/source/snprintf.c:1090-1095 | the digit loop prints the digits, with exactly as many commas as getnumsep() computed |
| PrintfDigits.GroupsOfThree | libhydrosphere/external/source/snprintf.c:1090-1095 | every group after the first has exactly three digits |
| PrintfInteger.EmitDigits | libhydrosphere/external/source/snprintf.c:1090-1095 | the digit loop from the highest to the lowest, with separators in between |
| PrintfInteger.FmtInt | libhydrosphere/external/source/snprintf.c:1001-1100 | appends IntText for every 64-bit value, base, width, precision and flags |
| PrintfIntegerProperties.IntReadsBack | libhydrosphere/external/source/snprintf.c:1001-1100 | the text reads back as the value, or its unsigned conversion, for every value, base, width, precision and flags |
| PrintfIntegerProperties.IntWidth | libhydrosphere/external/source/snprintf.c:1044-1057 | the field is max(width, natural length) if and only if no separators meet a precision beyond the digits, or the content fills the field anyway |
| PrintfIntegerProperties.IntWidthFallsShort | libhydrosphere/external/source/snprintf.c:1044-1057 | 12345 with width 10 and precision 8 and separators takes nine characters |
| PrintfIntegerProperties.IntDigits | libhydrosphere/external/source/snprintf.c:1044-1057 | the text shows at least as many digits as the precision asks for if and only if no separators meet a precision beyond the digits, or zeros fill a field wide enough to make up for them |
| PrintfIntegerProperties.OctalZero | libhydrosphere/external/source/snprintf.c:1030-1057 | in the alternative form a nonzero octal number leads with a zero, with the same exact exception |
| PrintfIntegerProperties.DecimalFallsShort | libhydrosphere/external/source/snprintf.c:1044-1057 | 12345 with precision 8 and separators shows seven digits |
| PrintfIntegerProperties.OctalFallsShort | libhydrosphere/external/source/snprintf.c:1030-1057 | octal 12345 in the alternative form with separators has no leading zero |
| PrintfShape.IntShape | libhydrosphere/external/source/snprintf.c:1001-1100 | the text of every integer, character by character: blanks, sign, prefix, zeros, the canonical digits in the case asked for with a comma in front of every third, blanks; sign, prefix and the side of the padding as the flags say, and exactly as many zeros and blanks as fmtint() counts |
| PrintfDecimal.ComputePow10 | libhydrosphere/external/source/snprintf.c:1492-1506 | the two loops compute the power of ten for every integer exponent |
| PrintfDecimal.PowIsPower | libhydrosphere/external/source/snprintf.c:1492-1506 | on non-negative exponents it is the integer power |
| PrintfDecimal.Cast | libhydrosphere/external/source/snprintf.c:1460-1482 | truncation below 2^64 - 1, and the overflow mark from there on |
| PrintfDecimal.MyRound | libhydrosphere/external/source/snprintf.c:1484-1490 | rounds half up |
| PrintfDecimal.GetExponent | libhydrosphere/external/source/snprintf.c:1424-1443 | the two loops with their limit of 99 |
| PrintfDecimal.ExponentFits | libhydrosphere/external/source/snprintf.c:1424-1443 | it is the true decimal exponent for every magnitude from 1e-99 up to 1e100 |
| PrintfDecimal.SplitRounds | libhydrosphere/external/source/snprintf.c:1203-1236 | integer and fractional part together are the value rounded half up, carry included |
| PrintfRounding.ComputeRounding | libhydrosphere/external/source/snprintf.c:1161-1272 | the block at the label again is passed at most twice, and computes the rounding |
| PrintfRounding.FixedRounds | libhydrosphere/external/source/snprintf.c:1161-1272 | %f: every finite value is rounded to min(precision, 19) decimals, and overflows exactly from 2^64 - 1 on |
| PrintfRounding.ScientificRounds | libhydrosphere/external/source/snprintf.c:1161-1272 | %e: the mantissa of the true exponent is rounded, one integer digit from 1 to 9 remains, ten becomes one with the exponent raised |
| PrintfRounding.GeneralRounds | libhydrosphere/external/source/snprintf.c:1238-1272 | %g: the style is f with precision P - (X + 1) if P > X >= -4 and e with precision P - 1 otherwise, X being the exponent after rounding |
| PrintfFloat.PrepareFraction | libhydrosphere/external/source/snprintf.c:1299-1315 | leading zeros, digits and omitted digits make up the fraction, without trailing zeros if they are to be omitted |
| PrintfFloat.PrepareExponent | libhydrosphere/external/source/snprintf.c:1274-1297 | the exponent with letter, sign and two digits, reversed in a four byte buffer |
| PrintfFloat.FmtFlt | libhydrosphere/external/source/snprintf.c:1102-1389 | appends FloatText for every finite value, or nothing if it overflows |
| PrintfFloatProperties.FloatWidth | libhydrosphere/external/source/snprintf.c:1321-1389 | the field of every finite value is max(width, natural length) |
| PrintfFloatProperties.DropKeepsDecimal | libhydrosphere/external/source/snprintf.c:1299-1315 | dropping trailing zeros keeps the number |
| PrintfFloatProperties.FixedDenotes | libhydrosphere/external/source/snprintf.c:1102-1389 | %f: the text denotes floor(10^p * |value| + 1/2) / 10^p with the value's sign, for every finite value below the limit and all flags |
| PrintfFloatProperties.ScientificDenotes | libhydrosphere/external/source/snprintf.c:1102-1389 | %e from 1e-99 up to 1e100: the text denotes the rounded mantissa times the power of ten if and only if the value does not round up to 1e100 |
| PrintfFloatProperties.ScientificFails | libhydrosphere/external/source/snprintf.c:1274-1297 | 9.6e99 with precision 0 is such a value: it is printed as 1e+00 |
| PrintfFloatProperties.GeneralDenotes | libhydrosphere/external/source/snprintf.c:1102-1389 | %g: the text denotes what the style chosen would denote, with or without trailing zeros, with the same exception |
| PrintfFloatProperties.ZeroDenotes | libhydrosphere/external/source/snprintf.c:1102-1389 | zero reads as zero in every style |
| PrintfShape.FloatShape | libhydrosphere/external/source/snprintf.c:1102-1389 | the text of every finite value that has one, character by character: blanks, sign, zeros, digits and commas, point, decimals, exponent, blanks; exactly min(precision or six, nineteen) decimals in the styles of %f and %e, those of the style chosen for %g, none of them a zero at the end of %g without #; a point if and only if there are decimals or #; letter, sign and two digits of the exponent |
| PrintfShape.GeneralDropsZeros | libhydrosphere/external/source/snprintf.c:1178-1184 | with # the text of %g has the same decimals followed by zeros only |
| PrintfScientific.ExponentAnywhere | libhydrosphere/external/source/snprintf.c:1424-1443 | outside the range of the search the exponent is -99 for nonzero values below 1e-99 and 99 from 1e100 on |
| PrintfScientific.ScientificAnywhere | libhydrosphere/external/source/snprintf.c:1102-1389 | %e of every finite value: it overflows exactly if the mantissa does, and otherwise the text denotes the rounded mantissa times the power of ten if and only if the exponent does not become 100 |
| PrintfScientific.OutOfRange | libhydrosphere/external/source/snprintf.c:1161-1297 | what %e prints beyond the search: the exponent -99 and the integer digit 0, or 1 if the value rounds up to it; or the exponent 99 and two or more integer digits, up to exactly (2^64 - 1) * 1e99, where it overflows |
| PrintfScientific.GeneralOutside | libhydrosphere/external/source/snprintf.c:1238-1272 | %g beyond the search stays in the style of %e and denotes the rounded mantissa times the power of ten |
| PrintfScientific.GeneralAnywhere | libhydrosphere/external/source/snprintf.c:1102-1389 | %g of every finite value, zero included: it overflows exactly if the style chosen does, and otherwise the text denotes what that style should, with the exception of %e |
| PrintfVsnprintf.FlagsState | libhydrosphere/external/source/snprintf.c:609-639 | one turn of the loop in the flags state keeps what remains to be printed |
| PrintfVsnprintf.WidthState | libhydrosphere/external/source/snprintf.c:640-663 | likewise for the width: it overflows exactly if the whole digit run is too large, and a negative argument becomes a flag and a magnitude |
| PrintfVsnprintf.DotState | libhydrosphere/external/source/snprintf.c:664-670 | likewise for the point |
| PrintfVsnprintf.PrecisionState | libhydrosphere/external/source/snprintf.c:671-694 | likewise for the precision |
| PrintfVsnprintf.ModState | libhydrosphere/external/source/snprintf.c:695-731 | likewise for the length modifier, which never reads past the terminating NUL |
| PrintfVsnprintf.EmitConversion | libhydrosphere/external/source/snprintf.c:732-947 | one conversion prints its text and consumes its arguments |
| PrintfVsnprintf.Scan | libhydrosphere/external/source/snprintf.c:600-953 | the state machine terminates and refines the grammar: it prints what the recursive Formatted says, or stops at the first overflow |
| PrintfVsnprintf.RplVsnprintf | libhydrosphere/external/source/snprintf.c:565-965 | for every format, matching arguments and size: the buffer holds the first min(length, size - 1) characters of the size-independent text and a NUL, all other bytes are unchanged, and the result is the length of that text, or -1 if a number was too large or the length exceeds 2^31 - 2 |
| PrintfFormatProperties.WidthLimit | libhydrosphere/external/source/snprintf.c:640-663 | a width of any number of digits overflows exactly if its value exceeds 2^31 - 1 |
| PrintfFormatProperties.PrecisionLimit | libhydrosphere/external/source/snprintf.c:671-694 | so does a precision, which is zero without digits |
| PrintfFormatProperties.LongNumbersOverflow | libhydrosphere/external/source/snprintf.c:640-694 | a format with such a width or precision prints nothing from there on and overflows |
| PrintfFormatProperties.DirectiveReadsBack | libhydrosphere/external/source/snprintf.c:600-953 | flags in any order and number, width, precision, modifier and conversion are recovered from a directive's text, with exactly what followed left over |
| PrintfFormatProperties.EveryDirectiveReadsBack | libhydrosphere/external/source/snprintf.c:600-953 | every directive record has such a text |
| PrintfFormatProperties.FlagLetters | libhydrosphere/external/source/snprintf.c:609-639 | which character sets which flag |
| PrintfFormatProperties.ModifierLetters | libhydrosphere/external/source/snprintf.c:695-731 | which letters name which type of argument |
| PrintfFormatProperties.UnknownSkipped | libhydrosphere/external/source/snprintf.c:945-951 | a directive with an unknown conversion, or one in which the format ends, prints nothing and takes no argument |
| PrintfFormatProperties.OrdinaryPrints | libhydrosphere/external/source/snprintf.c:602-608 | a format without a percent sign is printed as it is |
| PrintfFormatProperties.OrdinaryThen | libhydrosphere/external/source/snprintf.c:602-608 | in front of any rest of a format, too |
| PrintfFormatProperties.FormatsCompose | libhydrosphere/external/source/snprintf.c:600-953 | formatting f + g is formatting f and then g with the arguments left over, when f ends between directives |
| PrintfEndToEnd.DirectivePrints | libhydrosphere/external/source/snprintf.c:600-953 | the text of any directive record, its width and precision written out or stars, in front of any rest of a format, prints that conversion with whatever arguments there are and continues with the ones it leaves |
| PrintfEndToEnd.PlainPrints | libhydrosphere/external/source/snprintf.c:600-953 | without stars, that is the conversion with exactly the settings written |
| PrintfEndToEnd.StarsAreNumbers | libhydrosphere/external/source/snprintf.c:640-694 | a directive with stars prints what the directive with the numbers written out prints: a negative width as a minus flag and its magnitude, a negative precision not at all |
| PrintfEndToEnd.SignedDirective | libhydrosphere/external/source/snprintf.c:600-953 | %d and %i with any flags, width, precision and modifier, stars included: the field shows, in decimal digits, the argument converted to a type of 2^8, 2^16, 2^32 or 2^64 values, laid out as the flags say; it reads back as that value, and is at least as wide as asked for without separators |
| PrintfEndToEnd.StarSignedDirective | libhydrosphere/external/source/snprintf.c:640-765 | the same of %*.*d, with the width and the precision spelled out as the two arguments in front |
| PrintfEndToEnd.FixedDirective | libhydrosphere/external/source/snprintf.c:600-953 | %f, %F, %a and %A likewise: the output denotes the argument rounded half up, with exactly min(precision or six, nineteen) decimals and a point if there are any or #, and is at least as wide as asked for; from 2^64 - 1 on the format overflows |
| PrintfEndToEnd.UnsignedDirective | libhydrosphere/external/source/snprintf.c:766-810 | %u, %o, %x and %X likewise: the field shows, in base 10, 8, 16 and 16, the argument converted to the unsigned type of the modifier, with the digits of %X in upper case |
| PrintfEndToEnd.PointerDirective | libhydrosphere/external/source/snprintf.c:872-898 | %p of a pointer that is not null: the hexadecimal address with the prefix 0x |
| PrintfEndToEnd.ScientificDirective | libhydrosphere/external/source/snprintf.c:811-866 | %e and %E likewise for every finite value: the output denotes the rounded mantissa times the power of ten if and only if the exponent does not become 100, with exactly min(precision or six, nineteen) decimals, and shows the exponent with its letter, sign and two digits; or the format overflows exactly if the mantissa does |
| PrintfEndToEnd.GeneralDirective | libhydrosphere/external/source/snprintf.c:811-866 | %g and %G likewise for every finite value, zero included, with a precision of zero taken as one: the output denotes what the style chosen should, in that style, with all of its decimals in the alternative form and without zeros at their end otherwise; or the format overflows exactly if that style does |
| PrintfEndToEnd.TextDirective | libhydrosphere/external/source/snprintf.c:867-871 | %s likewise: the string cut to the precision at one end of the field and blanks in the rest |
| PrintfEndToEnd.NullDirective | libhydrosphere/external/source/snprintf.c:872-885 | %p of a null pointer: (nil) in a field of the width, not cut by a precision |
| PrintfEndToEnd.CharDirective | libhydrosphere/external/source/snprintf.c:863-866 | %c: the argument as one unsigned char, whatever the width |
| PrintfEndToEnd.SilentDirective | libhydrosphere/external/source/snprintf.c:899-944 | %n prints nothing and takes its argument; a directive with the conversion % prints a percent sign and takes none |
| PrintfEndToEnd.PercentPrints | libhydrosphere/external/source/snprintf.c:942-944 | two percent signs print one |
| PrintfEndToEnd.WholeFormat | libhydrosphere/external/source/snprintf.c:565-965 | every format made of ordinary texts and directives prints the texts and what the directives print, one after the other, until the first overflow |
| PrintfEndToEnd.SizeLine | application-template/source/main.cpp:45-45 | "Size: 0x%x" of an int that is not negative prints the text and the number in lower-case hexadecimal digits |
| AddressBits.MaskRoundsUp | libhydrosphere/source/common/os/detail/os_virtualmemory_allocator.cpp:29-52 | for every power of two the mask expression is the least multiple not below the address |
| VirtualMemory.VirtualMemoryAllocator.Reserve | libhydrosphere/source/common/os/detail/os_virtualmemory_allocator.cpp:26-81 | the two-pass loop terminates and returns the first fit of the first pass, else of the second, else null; a result is aligned and inside, and the position behind it is exactly the result plus the size in whole pages; null leaves the position, or the start if that was outside |
| VirtualMemory.ReserveGives | libhydrosphere/source/common/os/detail/os_virtualmemory_allocator.cpp:44-77 | null only if no ample block exists; otherwise aligned, inside the range, a guard beyond the origin of its pass, and in a free block no shorter than the rounded size |
| AddressSpace.FirstFitComplete | libhydrosphere/source/common/os/detail/os_virtualmemory_allocator.cpp:44-77 | a pass that begins at or before an ample block cannot step over it |
| AddressSpace.FirstFitSound | libhydrosphere/source/common/os/detail/os_virtualmemory_allocator.cpp:44-77 | what a pass finds is aligned, inside, beyond its origin and in a block that suits |
| AddressSpace.PlaceHere | libhydrosphere/source/common/os/detail/os_virtualmemory_allocator.cpp:33-76 | if the first address looked at, a guard behind the position and aligned, lies in a free block long enough, it is the result; if the block is not, the result is that of the same call from the end of the block |
| AddressSpace.PlaceFromStart | libhydrosphere/source/common/os/detail/os_virtualmemory_allocator.cpp:51-66 | if that address is beyond the range, the result is that of the same call from the start, or null if the call began there |
| AddressSpace.NextRangeFollows | libhydrosphere/source/common/os/detail/os_virtualmemory_allocator.cpp:44-77 | ranges are packed: over every history, the next call is given the least multiple of its alignment not below the end of the range before, in whole pages, plus a guard, if that is inside and lies in a free block long enough |
| AddressSpace.HistorySeparated | libhydrosphere/source/common/os/detail/os_virtualmemory_allocator.cpp:33-76 | over every history of calls and memory maps, ranges reserved without going back to the start in between are increasing, disjoint and a guard apart |
| AddressSpace.RepeatedCall | libhydrosphere/source/common/os/detail/os_virtualmemory_allocator.cpp:33-76 | the same request once more on an unchanged map, from any position: it is given the same range if and only if the search goes back to the start and the range is the first fit from there, or size and guard are both zero |
| AddressSpace.RepeatedFromStart | libhydrosphere/source/common/os/detail/os_virtualmemory_allocator.cpp:33-76 | for an allocator that searched from its start: if and only if the position behind the range is out of range or nothing is found from there on, or size and guard are both zero |
| AddressSpace.OverlapMeansReturn | libhydrosphere/source/common/os/detail/os_virtualmemory_allocator.cpp:33-76 | over every history, two ranges that overlap or are less than a guard apart mean that a call in between went back to the start |
| AddressSpace.WrapRepeats | libhydrosphere/source/common/os/detail/os_virtualmemory_allocator.cpp:54-66 | a map on which the second of two equal calls is given the same range |
| AddressSpace.RangesStayInBlocks | libhydrosphere/source/common/os/detail/os_virtualmemory_allocator.cpp:44-77 | for every allocator, request and map: from every position of the allocator the range reserved stays inside its free block if and only if the candidate behind every position leaves room for the size; one candidate for each block is looked at, no search is made |
| AddressSpace.RangeStaysInBlock | libhydrosphere/source/common/os/detail/os_virtualmemory_allocator.cpp:44-77 | the call at hand: room behind every position suffices, and if the candidate behind its own position suits, room there is necessary and sufficient |
| AddressSpace.PassStaysInBlock | libhydrosphere/source/common/os/detail/os_virtualmemory_allocator.cpp:44-77 | a pass stays inside the block where it lands if every suiting block ahead has room behind the origin or its own beginning, whichever is later |
| AddressSpace.CallStaysInBlock | libhydrosphere/source/common/os/detail/os_virtualmemory_allocator.cpp:44-77 | likewise for both passes of a call |
| AddressSpace.BlockEntered | libhydrosphere/source/common/os/detail/os_virtualmemory_allocator.cpp:44-77 | a pass that begins with a suiting block and has its candidate there reserves that candidate, inside the block if and only if there is room behind it |
| AddressSpace.RangeCanLeaveBlock | libhydrosphere/source/common/os/detail/os_virtualmemory_allocator.cpp:69-73 | a map and a request for which the condition fails and the range reserved reaches beyond its block |
| IntrusiveLists.IntrusiveListElement.LinkPrevRange | libhydrosphere/include/hs/util/util_intrusive_list.hpp:56-64 | a chain is spliced in front of an element, in order, writing four pointers only |
| IntrusiveLists.IntrusiveListElement.LinkPrev | libhydrosphere/include/hs/util/util_intrusive_list.hpp:50-50 | so is the whole ring of an element |
| IntrusiveLists.IntrusiveListElement.LinkNextRange | libhydrosphere/include/hs/util/util_intrusive_list.hpp:66-74 | a chain is spliced in behind an element, in order |
| IntrusiveLists.IntrusiveListElement.LinkNext | libhydrosphere/include/hs/util/util_intrusive_list.hpp:52-52 | so is a whole ring |
| IntrusiveLists.IntrusiveListElement.UnlinkRange | libhydrosphere/include/hs/util/util_intrusive_list.hpp:76-83 | a ring is cut into the elements before last_link and the others, each a ring in the old order |
| IntrusiveLists.IntrusiveListElement.Unlink | libhydrosphere/include/hs/util/util_intrusive_list.hpp:54-54 | one element leaves its ring |
| IntrusiveLists.Rotation | libhydrosphere/include/hs/util/util_intrusive_list.hpp:26-83 | a ring can be read from any of its elements |
| IntrusiveLists.UnlinkAndLinkAgain | libhydrosphere/include/hs/util/util_intrusive_list.hpp:50-83 | LinkPrev undoes Unlink pointer for pointer |
| IntrusiveLists.IntrusiveList.Empty | libhydrosphere/include/hs/util/util_intrusive_list.hpp:327-327 | true exactly for the empty sequence |
| IntrusiveLists.IntrusiveList.Size | libhydrosphere/include/hs/util/util_intrusive_list.hpp:332-338 | the loop terminates and counts the elements |
| IntrusiveLists.IntrusiveList.PushFront | libhydrosphere/include/hs/util/util_intrusive_list.hpp:390-390 | the ring of the element goes in front of the sequence |
| IntrusiveLists.IntrusiveList.PushBack | libhydrosphere/include/hs/util/util_intrusive_list.hpp:397-397 | or behind it |
| IntrusiveLists.IntrusiveList.PopFront | libhydrosphere/include/hs/util/util_intrusive_list.hpp:407-407 | the first element leaves and is on its own; nothing happens to an empty list |
| IntrusiveLists.IntrusiveList.PopBack | libhydrosphere/include/hs/util/util_intrusive_list.hpp:402-402 | likewise for the last element |
| IntrusiveLists.IntrusiveList.Insert | libhydrosphere/include/hs/util/util_intrusive_list.hpp:412-418 | the ring goes in front of the given position of the sequence |
| IntrusiveLists.IntrusiveList.Clear | libhydrosphere/include/hs/util/util_intrusive_list.hpp:450-454 | terminates with the list empty and every former element on its own |
| ThreadLists.ThreadList.constructor | libhydrosphere/source/common/os/detail/os_threadlist.hpp:28-32 | the list begins with the main thread alone |
| ThreadLists.ThreadList.AddThread | libhydrosphere/source/common/os/detail/os_threadlist.hpp:36-40 | an unlinked thread goes to the end, behind all the others in their order |
| ThreadLists.ThreadList.RemoveThread | libhydrosphere/source/common/os/detail/os_threadlist.hpp:42-51 | a thread other than the main one leaves its place, the others keep their order, and it is on its own; the main thread stays |
| ThreadLists.RunLists | libhydrosphere/source/common/os/detail/os_threadlist.hpp:28-52 | over every run of additions and removals the main thread is the first of the list, nobody is in it twice, and exactly those others that were added and not removed since |

## Left out

- BarrierCode.Barrier.AwaitBarrier: says nothing once the 32-bit count of arrivals has wrapped around; neither do the theorems of `Barrier`.
- PrintfVsnprintf.RplVsnprintf: requires arguments that match the format; a missing or mistyped argument is undefined in C.
- VirtualMemory.VirtualMemoryAllocator.Reserve: assumes that no address sum wraps around 64 bits and that the kernel's map covers the range and stays the same during one call; the critical section around the call is not repeated.
- ThreadLists.ThreadList.AddThread: assumes a thread that is not linked anywhere, as CreateThread provides; the critical section around the call is not repeated.
- LockCode.CriticalSection.Leave: assumes that the caller is the owner.
- The kernel itself, assembly stubs, thread-local storage access, linker scripts and logging.
- The C11 memory model: every atomic operation is one sequentially consistent step.
- Aborts of the lock's own system calls with other errors than the timeout, and the reuse of thread handles after they were closed.
- FinalizeBarrier, FinalizeUserEvent and the state fields they set, which no other function reads.
- Mutex and the condition variable over it, which rest on a comparison of handles whose inequality operator returns equality.
- CreateThread, its retries and its failure path, thread names, and the list of threads inside DestroyThread; priorities and sleeping.
- Casts between list elements and the objects around them, iterators, and erase, which unlinks one element whatever the range.
- Free of the allocator beyond its being a no-op, and the queries that initialise the two allocators.
- In the formatter: the store of %n (its argument is consumed), NaN and infinity, locale branches, errno, the rounding of binary floating point, overflow of int and size_t inside lengths, and the magnitudes of the most negative integers, which are taken as mathematical values. Zero with precision zero prints a digit, unlike C99. A string is read to its NUL even where a precision would bound it.
- Utilities such as KernelEvent, Optional, ObjectStorage, Result, memcpy, memset and Strlen.
