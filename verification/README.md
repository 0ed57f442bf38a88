# Verified models of an embedded Linux project

Dafny models of the four parts of this project that are hardest to get right, and proofs of what they promise.

- **High-resolution timers** (`hrtimer.c`). `HrtimerProtocol` is the locking protocol as a state machine: any number
  of threads inside `hrtimer_start_range_ns` and `hrtimer_try_to_cancel`, the expiry loops of all clock bases, and a
  lock-free caller of `hrtimer_active`, one racing access per step; `HrtimerOutcome` is what the operations achieve in
  it, and that nobody gets stuck. `HrtimerQueues` defines the next event by brute force. `HrtimerCpu` is one CPU's
  `hrtimer_cpu_base` with its caches, as a class whose methods are the stretches of code under its lock.
  `HrtimerForward` is `hrtimer_forward` and the shifting 64-bit division of 32-bit machines.
- **The virtio rpmsg bus** (`virtio_rpmsg_bus.c`). `RpmsgTx` is the tx buffer allocator with blocking senders and the
  interrupt gated by their count; `RpmsgEndpoint` is the life of an endpoint among receivers and one destroyer.
- **cJSON** (`cJSON.c`). `CjsonString` has literals, both scans of `parse_string`, UTF-16 to UTF-8 and escaping, and
  `CjsonLiterals` what can stand in a literal; `CjsonTree` the trees and their printed text; `CjsonParse` what the
  parser makes of a text, and `CjsonParser` the parse buffer that computes it; `CjsonNumbers` is the numerals and
  `CjsonGrammar` the language that is accepted; `CjsonRoundTrip` the round trip; `CjsonPrinter` the growing print
  buffer and `CjsonLayout` the layout; `CjsonMinify` the in-place minifier and `CjsonPlain` which strings it can
  change; `CjsonCompare` and `CjsonDuplicate` deep comparison and deep copy.
- **The W5 command protocol** (`protocol_uart.c`, `protocol_i2c.c`, `protocol.h`, `w5_com.c`). `W5Frames` builds and
  checks frames for both transports; `W5Link` has the fragmented reads, the retries and the two calls above them.

Concurrency is modelled with atomic, sequentially consistent steps, and every interleaving of them is covered: the
main statements speak of all reachable states or of all runs. Where a class stands for shared state, each method is one
stretch that others cannot interleave with, a run is any sequence of calls (`NeverArmedLate`, `AnyRun`), and a prefix
of a run is a run.

Sequences of characters below 256 stand for bytes. A JSON text is what stands before its terminating NUL. Numbers are
exact reals.

Some properties the code is meant to have turn out to depend on more than the code checks. For each there is a family of
inputs that fails and the exact condition:

- `hrtimer_active` can answer false for a timer that was enqueued or running throughout, if the timer is carried to
  another CPU, fires and is carried back during the call (`MisledWhenTimerReturns`); it cannot unless the timer comes back
  to the base that the caller has read (`ActivityCheckIsSound`). So the answer can be relied on exactly when the starts of
  the timer keep to one CPU (`ReliableOnOneCpu`).
- The event device can be armed too late for a soft timer, since the next soft event on record may be that of a timer that
  has been cancelled (`ArmedLateForSoft`); `Serve` says exactly which requests lead there. For hard timers it is never
  armed too late (`NeverArmedLate`).
- `cJSON_Minify` can change what a text means: it takes the quote behind an escaped backslash for an escaped quote
  (`MisreadPair`). A string is safe in every otherwise plain text exactly if it does not end in a backslash, said of the
  spelling of literals (`KeptExactly`) and of the texts and keys of printed trees (`TreesKeptExactly`).
- `W5comCallQuery` copies as many bytes as the device says are good; the copy stays inside its buffers exactly if the
  device does not say more than was asked for (`CopyStaysInside`, `ClaimsOneTooMany`). The two transports agree on
  responses of the length asked for (`QueriesAgree`), on longer ones as a rule not (`OverlongReplies`).

`dafny verify dfyconfig.toml` checks the whole project.

## Model

| member | source | states |
|---|---|---|
| `HrtimerProtocol.Ownership` | project-spec/meta-user/recipes-kernel/linux/linux-xlnx/hrtimer.c:149-177 | in every reachable interleaving, a thread past `lock_hrtimer_base` owns the timer alone: it holds the lock of the base the timer points to, or has it parked on `migration_base`; a timer that was enqueued when restarted stays marked enqueued, and on no queue, until it is placed; `goto again` is taken at most once |
| `HrtimerProtocol.SoleOwner` | project-spec/meta-user/recipes-kernel/linux/linux-xlnx/hrtimer.c:220-268 | two owners of one timer are the same thread |
| `HrtimerProtocol.OwnerExcludesExpirer` | project-spec/meta-user/recipes-kernel/linux/linux-xlnx/hrtimer.c:1475-1543 | while an expiry loop works on a timer under the lock, no thread owns that timer |
| `HrtimerProtocol.CallbackExclusion` | project-spec/meta-user/recipes-kernel/linux/linux-xlnx/hrtimer.c:1475-1543 | from `running = timer` to `running = NULL` the timer stays on that clock base, `running` still names it when it is checked, it runs on no second base, and nobody has it parked |
| `HrtimerProtocol.QueuedOnce` | project-spec/meta-user/recipes-kernel/linux/linux-xlnx/hrtimer.c:962-1036 | a queued timer is queued exactly once, on one base only, and is marked enqueued, even when it is restarted during its own callback |
| `HrtimerProtocol.NoTimerLost` | project-spec/meta-user/recipes-kernel/linux/linux-xlnx/hrtimer.c:1014-1102 | a timer marked enqueued is on the queue of the base it points to, or a restart that owns it is carrying it there |
| `HrtimerProtocol.EventKeepsInv` | project-spec/meta-user/recipes-kernel/linux/linux-xlnx/hrtimer.c:160-1543 | every atomic step of lock, switch, start, cancel and expiry keeps the invariant of all threads, bases and queue entries |
| `HrtimerProtocol.HistoryInv` | project-spec/meta-user/recipes-kernel/linux/linux-xlnx/hrtimer.c:160-1543 | the invariant holds after every run of steps from freshly initialised timers |
| `HrtimerProtocol.HomeStep` | project-spec/meta-user/recipes-kernel/linux/linux-xlnx/hrtimer.c:243-263 | the three writes of `timer->base` by its owner (park, settle, back out) leave every other thread and base undisturbed |
| `HrtimerProtocol.RemoveKeepsBases` | project-spec/meta-user/recipes-kernel/linux/linux-xlnx/hrtimer.c:985-1036 | taking a timer off its queue as its owner breaks nothing any expiry loop relies on |
| `HrtimerProtocol.TakeStep` | project-spec/meta-user/recipes-kernel/linux/linux-xlnx/hrtimer.c:1486-1497 | the expiry loop takes its timer off the queue without disturbing any owner |
| `HrtimerProtocol.RestartStep` | project-spec/meta-user/recipes-kernel/linux/linux-xlnx/hrtimer.c:1516-1530 | a restarting callback puts its timer back without a second entry and without disturbing any owner |
| `HrtimerProtocol.ActivityCheckIsSound` | project-spec/meta-user/recipes-kernel/linux/linux-xlnx/hrtimer.c:1430-1454 | however `hrtimer_active` interleaves with starts, cancels and expiry on any CPU, and wherever the timer is moved meanwhile, the answer false is true of some instant within the call, unless a step takes the timer back to the base that the reader holds |
| `HrtimerProtocol.ActiveAnswerIsSound` | project-spec/meta-user/recipes-kernel/linux/linux-xlnx/hrtimer.c:1437-1454 | the answer true is true of the instant it was given on, without any proviso |
| `HrtimerProtocol.ReaderNeverMisled` | project-spec/meta-user/recipes-kernel/linux/linux-xlnx/hrtimer.c:1437-1454 | until the timer is quiet, the reader's local variables cannot lead it to answer false: either they are still true of the timer's base, or the timer has left the base the reader holds, which its last access notices |
| `HrtimerProtocol.ReliableOnOneCpu` | project-spec/meta-user/recipes-kernel/linux/linux-xlnx/hrtimer.c:1430-1454 | the answer false can be relied on exactly when the starts of the timer keep to one CPU: then in every run it is true of some instant of the call, and for any two CPUs the starts may name there is a run in which it is not; the comment in the code asks for no false negative |
| `HrtimerProtocol.ReaderSurvives` | project-spec/meta-user/recipes-kernel/linux/linux-xlnx/hrtimer.c:1457-1543 | no step of anybody disturbs what the reader relies on, except by making the timer quiet |
| `HrtimerProtocol.MisledWhenTimerReturns` | project-spec/meta-user/recipes-kernel/linux/linux-xlnx/hrtimer.c:1430-1454 | for any two clock bases of the same index on different CPUs, a run in which the timer is carried from one to the other, fires, restarts and is carried back makes `hrtimer_active` answer false although the timer was enqueued or running at every instant of the call |
| `HrtimerOutcome.CancelDecides` | project-spec/meta-user/recipes-kernel/linux/linux-xlnx/hrtimer.c:1149-1175 | under the lock a cancel always comes to one of two ends: it reports that it has no say exactly while a callback of the timer is in progress, and removes the timer exactly otherwise |
| `HrtimerOutcome.CancelTakesOff` | project-spec/meta-user/recipes-kernel/linux/linux-xlnx/hrtimer.c:1166-1175 | a cancel leaves its timer unmarked, on no queue and with no callback in progress, returns 1 if it was on a queue and 0 if not, and touches nothing else |
| `HrtimerOutcome.CancelWhileRunning` | project-spec/meta-user/recipes-kernel/linux/linux-xlnx/hrtimer.c:1154-1175 | a cancel during the callback returns -1 and changes nothing |
| `HrtimerOutcome.CancelledStaysOff` | project-spec/meta-user/recipes-kernel/linux/linux-xlnx/hrtimer.c:1014-1175 | whatever anybody does next, a cancelled timer stays off every queue and its callback does not run, until a start puts it on a queue |
| `HrtimerOutcome.StartAims` | project-spec/meta-user/recipes-kernel/linux/linux-xlnx/hrtimer.c:1086-1102 | a restart takes its timer off the queue, leaves it marked as it was, and first tries the CPU it is aimed at |
| `HrtimerOutcome.StartPutsOn` | project-spec/meta-user/recipes-kernel/linux/linux-xlnx/hrtimer.c:1081-1135 | a start leaves its timer marked and on one queue, once: that of the base which `timer->base` names, of the timer's own clock, on the CPU aimed at, on the caller's, or where its callback is running; nothing else changes |
| `HrtimerOutcome.StartsPlace` | project-spec/meta-user/recipes-kernel/linux/linux-xlnx/hrtimer.c:220-268 | a start keeps its timer on a CPU that is neither the target nor its own only while the callback runs there |
| `HrtimerOutcome.HistoryOnClock` | project-spec/meta-user/recipes-kernel/linux/linux-xlnx/hrtimer.c:225-233 | in every run a timer keeps the clock it was initialised on, also while a thread has it parked |
| `HrtimerOutcome.TakeTakesOff` | project-spec/meta-user/recipes-kernel/linux/linux-xlnx/hrtimer.c:1486-1497 | before its callback is called a timer is unmarked and on no queue |
| `HrtimerOutcome.RestartPutsBack` | project-spec/meta-user/recipes-kernel/linux/linux-xlnx/hrtimer.c:1515-1530 | after a callback that asks for a restart the timer is on the queue of its base, once, whoever put it there; after one that does not, the queues are as they were |
| `HrtimerOutcome.NeverStuck` | project-spec/meta-user/recipes-kernel/linux/linux-xlnx/hrtimer.c:149-1543 | no deadlock: in every reachable state in which anybody is inside a start, a cancel or an expiry, one of them can take its next step |
| `HrtimerOutcome.HistoryLive` | project-spec/meta-user/recipes-kernel/linux/linux-xlnx/hrtimer.c:149-268 | in every run a lock that is taken is held by somebody who is where it is held, and a timer on `migration_base` has a thread that will take it from there |
| `HrtimerOutcome.AnswersWhenAlone` | project-spec/meta-user/recipes-kernel/linux/linux-xlnx/hrtimer.c:1437-1454 | undisturbed and outside a barrier, `hrtimer_active` answers after six accesses at most, and says whether the timer is enqueued or running |
| `HrtimerQueues.InsertAdds` | project-spec/meta-user/recipes-kernel/linux/linux-xlnx/hrtimer.c:962-973 | an insertion adds the one timer and keeps all others |
| `HrtimerQueues.InsertPlaces` | project-spec/meta-user/recipes-kernel/linux/linux-xlnx/hrtimer.c:962-973 | a new timer goes behind all that do not expire later and before all others, which stay in order |
| `HrtimerQueues.RemoveSorted` | project-spec/meta-user/recipes-kernel/linux/linux-xlnx/hrtimer.c:985-996 | a removal keeps the expiry order |
| `HrtimerQueues.RemoveTakes` | project-spec/meta-user/recipes-kernel/linux/linux-xlnx/hrtimer.c:985-996 | a removal takes the one timer and keeps all others |
| `HrtimerQueues.EarliestIsUnique` | project-spec/meta-user/recipes-kernel/linux/linux-xlnx/hrtimer.c:566-590 | the brute-force definition of the next event determines it |
| `HrtimerQueues.EarliestOfBoth` | project-spec/meta-user/recipes-kernel/linux/linux-xlnx/hrtimer.c:566-590 | searching the soft bases first and the hard ones from their result on is searching all of them |
| `HrtimerQueues.LeastGrows` | project-spec/meta-user/recipes-kernel/linux/linux-xlnx/hrtimer.c:503-547 | looking at the leftmost timer of a base, or at the one behind it when that is the excluded one, is as good as looking at all its timers |
| `HrtimerQueues.BoundedAfterInsert` | project-spec/meta-user/recipes-kernel/linux/linux-xlnx/hrtimer.c:775-855 | after an insertion the armed event is still a bound exactly if it is one for the new timer, should that be the leftmost |
| `HrtimerCpu.CpuBase.NextEventBase` | project-spec/meta-user/recipes-kernel/linux/linux-xlnx/hrtimer.c:503-547 | the result is the zero-clamped minimum over every queued timer of the half searched and the value given; without an exclusion the next-timer pointer is left at a timer that attains it |
| `HrtimerCpu.CpuBase.GetNextEvent` | project-spec/meta-user/recipes-kernel/linux/linux-xlnx/hrtimer.c:566-590 | the result is the zero-clamped minimum of the adjusted expiries of all queued timers, hard ones only while a softirq is pending; below KTIME_MAX the next-timer pointer names a queued timer that attains it |
| `HrtimerCpu.CpuBase.NextEventWithout` | project-spec/meta-user/recipes-kernel/linux/linux-xlnx/hrtimer.c:1335-1359 | in high-resolution mode the result is the same minimum with one timer left out, and the pointers do not change |
| `HrtimerCpu.CpuBase.ForceReprogram` | project-spec/meta-user/recipes-kernel/linux/linux-xlnx/hrtimer.c:627-676 | afterwards the armed event is the brute-force minimum, the next-timer pointer names a timer that attains it, and the record of the next soft event follows only if that timer is a soft one |
| `HrtimerCpu.CpuBase.Reprogram` | project-spec/meta-user/recipes-kernel/linux/linux-xlnx/hrtimer.c:775-855 | exactly when the device is re-armed, for hard and soft timers, local and remote callers, inside and outside the interrupt |
| `HrtimerCpu.CpuBase.Enqueue` | project-spec/meta-user/recipes-kernel/linux/linux-xlnx/hrtimer.c:962-973 | the timer is added in order, its base's bit is set, and the answer says whether it is the leftmost |
| `HrtimerCpu.CpuBase.RemoveTimer` | project-spec/meta-user/recipes-kernel/linux/linux-xlnx/hrtimer.c:985-1009 | the timer leaves its queue, the bit follows, and the device is re-armed exactly when the timer was the next one and the caller asks for it; an armed event that was early enough stays so |
| `HrtimerCpu.CpuBase.StartFromElsewhere` | project-spec/meta-user/recipes-kernel/linux/linux-xlnx/hrtimer.c:188-195 | a start from another CPU is accepted exactly when it does not expire before the armed event; the device is not touched and still not armed late, and only the soft event on record may follow |
| `HrtimerCpu.CpuBase.StartHere` | project-spec/meta-user/recipes-kernel/linux/linux-xlnx/hrtimer.c:1113-1135 | a local start keeps the device armed in time for hard timers; for soft ones exactly unless it starts a soft timer that expires between the soft event on record and the armed event, while no softirq is pending or running and the interrupt is not running |
| `HrtimerCpu.CpuBase.StartWhileRunning` | project-spec/meta-user/recipes-kernel/linux/linux-xlnx/hrtimer.c:240-244 | a timer that must stay because its callback runs here is queued without any check, and the device is still not armed late once the interrupt is left |
| `HrtimerCpu.CpuBase.ExpireOrLeave` | project-spec/meta-user/recipes-kernel/linux/linux-xlnx/hrtimer.c:1545-1582 | a callback starts exactly if the clock base is in the snapshot and its leftmost timer's soft expiry is at or before now; and when a clock base is left, no timer on it has its hard expiry at or before now, although only the leftmost timer is inspected |
| `HrtimerCpu.CpuBase.CallbackReturns` | project-spec/meta-user/recipes-kernel/linux/linux-xlnx/hrtimer.c:1516-1530 | a timer whose callback asks for a restart is queued again unless someone has queued it already |
| `HrtimerCpu.CpuBase.EnterInterrupt` | project-spec/meta-user/recipes-kernel/linux/linux-xlnx/hrtimer.c:1609-1639 | the interrupt starts with the armed event at KTIME_MAX and hands due soft timers to the softirq |
| `HrtimerCpu.CpuBase.LeaveInterrupt` | project-spec/meta-user/recipes-kernel/linux/linux-xlnx/hrtimer.c:1641-1651 | the interrupt ends with the armed event at the brute-force minimum, the pointer at a timer that attains it or at none, and what it knows of the softirq as it was |
| `HrtimerCpu.CpuBase.LeaveSoftirq` | project-spec/meta-user/recipes-kernel/linux/linux-xlnx/hrtimer.c:1584-1601 | the next soft event on record becomes the minimum of what was on record and the queued soft timers; after a softirq that the interrupt has raised it is the next soft timer's, and the device is armed no later than that; otherwise it may be armed late exactly if the next soft timer expires between the event on record and the armed event |
| `HrtimerCpu.CpuBase.UpdateSoftirqTimer` | project-spec/meta-user/recipes-kernel/linux/linux-xlnx/hrtimer.c:1057-1079 | the soft event on record and the armed event move forward to the earliest queued soft timer and never back, so that a record that is too early stops both |
| `HrtimerCpu.NeverArmedLate` | project-spec/meta-user/recipes-kernel/linux/linux-xlnx/hrtimer.c:1609-1650 | after any sequence of starts, cancels, interrupts, softirqs and callbacks, whenever the interrupt handler is not inside, the armed event is not later than the clamped expiry of any hard timer queued on the CPU |
| `HrtimerCpu.Serve` | project-spec/meta-user/recipes-kernel/linux/linux-xlnx/hrtimer.c:775-855 | every stretch of locked code keeps the bound on hard timers; and it keeps the same bound on soft timers, for the times when nothing else looks after them, exactly if it does not overlook one: a soft timer started here, or found at the end of a softirq, between the soft event on record and the armed event |
| `HrtimerCpu.ArmedLateForSoft` | project-spec/meta-user/recipes-kernel/linux/linux-xlnx/hrtimer.c:627-676 | for all a <= b < h: start a soft timer at a, a hard one at h, cancel the first, start a soft one at b, all locally; then the device is armed for h and not for b, with no softirq pending |
| `HrtimerForward.KtimeDivns` | project-spec/meta-user/recipes-kernel/linux/linux-xlnx/hrtimer.c:299-316 | for divisors below 2^32 the result is the true quotient, otherwise the quotient or one more, with the sign of the dividend |
| `HrtimerForward.NarrowDivisor` | project-spec/meta-user/recipes-kernel/linux/linux-xlnx/hrtimer.c:307-312 | the divisor is shifted right no more often than needed to fit 32 bits |
| `HrtimerForward.ShiftedAtMostOneAbove` | project-spec/meta-user/recipes-kernel/linux/linux-xlnx/hrtimer.c:306-315 | the quotient of the shifted operands exceeds the true one by at most one |
| `HrtimerForward.ShiftedNotBelow` | project-spec/meta-user/recipes-kernel/linux/linux-xlnx/hrtimer.c:306-315 | the quotient of the shifted operands is never below the true one |
| `HrtimerForward.Landing` | project-spec/meta-user/recipes-kernel/linux/linux-xlnx/hrtimer.c:930-948 | a quotient that may be one too high lands at most one interval around now, so that the final correction suffices |
| `HrtimerForward.OverrunsAreUnique` | project-spec/meta-user/recipes-kernel/linux/linux-xlnx/hrtimer.c:918-951 | the overrun count is determined by old expiry, now and interval |
| `HrtimerForward.AddSafeSaturates` | project-spec/meta-user/recipes-kernel/linux/linux-xlnx/hrtimer.c:323-336 | for times that are not negative `ktime_add_safe` adds with saturation at KTIME_MAX |
| `HrtimerForward.Timer.Forward` | project-spec/meta-user/recipes-kernel/linux/linux-xlnx/hrtimer.c:918-951 | for an unqueued expired timer the result is the unique number of intervals that takes the expiry past now, and both expiries move by exactly that, up to KTIME_MAX, whichever division the machine has; otherwise nothing moves |
| `RpmsgTx.AnyRun` | project-spec/meta-user/recipes-kernel/linux/linux-xlnx/virtio_rpmsg_bus.c:480-518 | after any interleaving of senders, the remote side and the interrupt: the tx interrupt is enabled exactly while senders are counted, nobody sleeps unwoken beside a returned buffer unless the interrupt is on its way, every buffer is in exactly one place, and the buffers in flight fit the ring |
| `RpmsgTx.VirtProc.NoLostWakeup` | project-spec/meta-user/recipes-kernel/linux/linux-xlnx/virtio_rpmsg_bus.c:585-613 | a sender that sleeps unwoken has its interrupt enabled, and a returned buffer means that the interrupt is pending |
| `RpmsgTx.VirtProc.InFlightBound` | project-spec/meta-user/recipes-kernel/linux/linux-xlnx/virtio_rpmsg_bus.c:900-930 | buffers in flight, returned and lost together never outnumber the tx half |
| `RpmsgTx.VirtProc.GetATxBuf` | project-spec/meta-user/recipes-kernel/linux/linux-xlnx/virtio_rpmsg_bus.c:441-462 | a fresh buffer while there is one, then the oldest returned one, then none |
| `RpmsgTx.VirtProc.FirstFetch` | project-spec/meta-user/recipes-kernel/linux/linux-xlnx/virtio_rpmsg_bus.c:585-588 | a sender that may not wait is turned away only when there is no buffer at all |
| `RpmsgTx.VirtProc.UprefSleepers` | project-spec/meta-user/recipes-kernel/linux/linux-xlnx/virtio_rpmsg_bus.c:480-491 | the first sleeper enables the interrupt |
| `RpmsgTx.VirtProc.Look` | project-spec/meta-user/recipes-kernel/linux/linux-xlnx/virtio_rpmsg_bus.c:590-605 | a look at the wait condition takes a buffer if there is one; a sender that finds none joins the queue, sleeps with what it knows of being woken, gives up if its time has run out, or starts over if a signal came |
| `RpmsgTx.VirtProc.OutOfTime` | project-spec/meta-user/recipes-kernel/linux/linux-xlnx/virtio_rpmsg_bus.c:598-611 | a sender whose time has run out and whose last look finds nothing is gone |
| `RpmsgTx.VirtProc.Interrupted` | project-spec/meta-user/recipes-kernel/linux/linux-xlnx/virtio_rpmsg_bus.c:598-611 | a sender that a signal has taken from the queue empty-handed starts over |
| `RpmsgTx.Serve` | project-spec/meta-user/recipes-kernel/linux/linux-xlnx/virtio_rpmsg_bus.c:577-650 | in every step, senders leave only with their message handed over, without a buffer they may not wait for, or given up; and nobody gives up but by a last look that found nothing after its time had run out |
| `RpmsgTx.VirtProc.DownrefSleepers` | project-spec/meta-user/recipes-kernel/linux/linux-xlnx/virtio_rpmsg_bus.c:507-518 | the last sleeper to leave disables the interrupt, and each leaves with its buffer, gives up or tries again |
| `RpmsgTx.VirtProc.AddOutbuf` | project-spec/meta-user/recipes-kernel/linux/linux-xlnx/virtio_rpmsg_bus.c:629-650 | a filled buffer goes in flight, or is lost when the virtqueue refuses it |
| `RpmsgTx.VirtProc.RemoteReturns` | project-spec/meta-user/recipes-kernel/linux/linux-xlnx/virtio_rpmsg_bus.c:804-812 | an enabled virtqueue signals each returned buffer |
| `RpmsgTx.VirtProc.XmitDone` | project-spec/meta-user/recipes-kernel/linux/linux-xlnx/virtio_rpmsg_bus.c:804-812 | the interrupt wakes exactly the senders on the wait queue, asleep or about to look |
| `RpmsgTx.PartitionGrant` | project-spec/meta-user/recipes-kernel/linux/linux-xlnx/virtio_rpmsg_bus.c:441-462 | the allocator hands out only buffers that nobody holds and that are in no other place |
| `RpmsgTx.PartitionHandOver` | project-spec/meta-user/recipes-kernel/linux/linux-xlnx/virtio_rpmsg_bus.c:629-650 | handing a buffer to the virtqueue, or losing it, keeps every buffer in exactly one place |
| `RpmsgTx.Layout` | project-spec/meta-user/recipes-kernel/linux/linux-xlnx/virtio_rpmsg_bus.c:900-930 | the tx buffers lie disjointly in the upper half of the region, the rx buffers in the lower, and the tx half fits the ring |
| `RpmsgEndpoint.AnyRun` | project-spec/meta-user/recipes-kernel/linux/linux-xlnx/virtio_rpmsg_bus.c:232-316 | after any interleaving of creations, inbound messages and one destroy per endpoint, the reference counts are exact, an endpoint has been freed once if nobody can use it and not at all otherwise, and no callback runs whose endpoint is past the clearing of its callback |
| `RpmsgEndpoint.RunAfterDestroy` | project-spec/meta-user/recipes-kernel/linux/linux-xlnx/virtio_rpmsg_bus.c:302-316 | once destroy has returned, no run of further events starts the callback or finds it running |
| `RpmsgEndpoint.Endpoints.Lifetime` | project-spec/meta-user/recipes-kernel/linux/linux-xlnx/virtio_rpmsg_bus.c:220-316 | the count is one for the owner until destroy drops it and one for each message being delivered; the memory is given back once, exactly when nobody uses it, and what the table leads to is alive |
| `RpmsgEndpoint.Endpoints.CallbackStopped` | project-spec/meta-user/recipes-kernel/linux/linux-xlnx/virtio_rpmsg_bus.c:303-316 | a running callback belongs to an endpoint whose destroy has not yet taken `cb_lock`, is alone, and its memory is there; so after destroy has returned no callback runs or starts |
| `RpmsgEndpoint.Endpoints.LowestFree` | project-spec/meta-user/recipes-kernel/linux/linux-xlnx/virtio_rpmsg_bus.c:247-262 | the address found is the lowest free one from the given one on |
| `RpmsgEndpoint.Endpoints.CreateEpt` | project-spec/meta-user/recipes-kernel/linux/linux-xlnx/virtio_rpmsg_bus.c:232-280 | creation fails exactly when the address asked for is taken, and then gives the memory back; without an address it binds the lowest free one that is not reserved |
| `RpmsgEndpoint.Endpoints.Lookup` | project-spec/meta-user/recipes-kernel/linux/linux-xlnx/virtio_rpmsg_bus.c:726-736 | an endpoint is found exactly while it is bound, and a reference is taken in the same step |
| `RpmsgEndpoint.Endpoints.Invoke` | project-spec/meta-user/recipes-kernel/linux/linux-xlnx/virtio_rpmsg_bus.c:740-746 | the callback is called exactly if it has not been cleared |
| `RpmsgEndpoint.Endpoints.ReceiverPuts` | project-spec/meta-user/recipes-kernel/linux/linux-xlnx/virtio_rpmsg_bus.c:747-750 | the receiver that drops the last reference frees the endpoint |
| `RpmsgEndpoint.Endpoints.DestroyEpt` | project-spec/meta-user/recipes-kernel/linux/linux-xlnx/virtio_rpmsg_bus.c:303-308 | later messages do not find the endpoint |
| `RpmsgEndpoint.Endpoints.ClearCallback` | project-spec/meta-user/recipes-kernel/linux/linux-xlnx/virtio_rpmsg_bus.c:310-313 | the callback is cleared under `cb_lock`, when no receiver is in it |
| `RpmsgEndpoint.Endpoints.DestroyerPuts` | project-spec/meta-user/recipes-kernel/linux/linux-xlnx/virtio_rpmsg_bus.c:315-316 | destroy drops the owner's reference, and frees if it was the last |
| `CjsonString.ParseHex4` | project-spec/meta-user/recipes-apps/momenta/files/common/cJSON.c:556-589 | the value of four hexadecimal digits, or zero if any of them is none |
| `CjsonString.EncodeUtf8` | project-spec/meta-user/recipes-apps/momenta/files/common/cJSON.c:688-706 | the loop from the last byte to the first writes exactly the UTF-8 bytes of the code point, and nothing else |
| `CjsonString.Utf16LiteralToUtf8` | project-spec/meta-user/recipes-apps/momenta/files/common/cJSON.c:593-711 | a literal is refused exactly when it is cut short, starts with a low surrogate, or a high surrogate is not followed by a low one; otherwise the bytes of its code point are written |
| `CjsonString.EscapeBecomesUtf8` | project-spec/meta-user/recipes-apps/momenta/files/common/cJSON.c:593-711 | every well-formed \u escape or surrogate pair becomes the UTF-8 bytes of its character, and a strict decoder recovers the character (RFC 2781 section 2.2, RFC 3629 section 3) |
| `CjsonString.Utf8Decodes` | project-spec/meta-user/recipes-apps/momenta/files/common/cJSON.c:650-706 | the bytes written decode, strictly, to the code point they were made from |
| `CjsonString.Scan` | project-spec/meta-user/recipes-apps/momenta/files/common/cJSON.c:727-749 | the first scan finds the closing quote and counts the escapes before it |
| `CjsonString.StepFits` | project-spec/meta-user/recipes-apps/momenta/files/common/cJSON.c:727-826 | one step of the second scan yields no more bytes than the first scan left room for, even where malformed escapes put the two scans out of step |
| `CjsonString.Rewrite` | project-spec/meta-user/recipes-apps/momenta/files/common/cJSON.c:760-826 | for every body, malformed or not, all writes of the second loop stay within the estimate of the first with a byte to spare, and it succeeds exactly when every escape is good |
| `CjsonString.ParseString` | project-spec/meta-user/recipes-apps/momenta/files/common/cJSON.c:714-840 | what `parse_string` reads, from which part of the text, and when it fails |
| `CjsonString.QuoteReadsBack` | project-spec/meta-user/recipes-apps/momenta/files/common/cJSON.c:843-962 | a text without NUL that was printed as a literal is read back, whatever follows it |
| `CjsonString.EscapeReadsBack` | project-spec/meta-user/recipes-apps/momenta/files/common/cJSON.c:868-957 | the escaped text has its closing quote where it was put, and unescapes to the text |
| `CjsonLiterals.CloseIsFirstBare` | project-spec/meta-user/recipes-apps/momenta/files/common/cJSON.c:727-749 | the closing quote that the first scan finds is the first quote with an even number of backslashes before it |
| `CjsonLiterals.UnitsRead` | project-spec/meta-user/recipes-apps/momenta/files/common/cJSON.c:760-826 | a body made of plain characters, escapes of two characters, \u escapes and pairs of them stands for their characters in UTF-8, one after the other; four characters behind \u that are no number stand for NUL |
| `CjsonLiterals.UnitsOf` | project-spec/meta-user/recipes-apps/momenta/files/common/cJSON.c:760-826 | no other body is accepted |
| `CjsonLiterals.SimpleIs` | project-spec/meta-user/recipes-apps/momenta/files/common/cJSON.c:773-800 | which escapes of two characters there are, \/ included, and what each stands for |
| `CjsonLiterals.HexDigitIs` | project-spec/meta-user/recipes-apps/momenta/files/common/cJSON.c:556-589 | the hexadecimal digits, in both cases, and their values |
| `CjsonLiterals.EscapeCharIs` | project-spec/meta-user/recipes-apps/momenta/files/common/cJSON.c:913-957 | the printer writes an escape of two characters where there is one, but not for the slash, a \u escape with small digits for other control characters, and anything else as it is |
| `CjsonNumbers.StrtodReads` | project-spec/meta-user/recipes-apps/momenta/files/common/cJSON.c:326-331 | `strtod` takes a whole numeral, with all its optional parts, that nothing behind it continues, for its value |
| `CjsonNumbers.StrtodTakesNumerals` | project-spec/meta-user/recipes-apps/momenta/files/common/cJSON.c:326-331 | whatever `strtod` takes is such a numeral, as long as it goes |
| `CjsonNumbers.ReadsNumerals` | project-spec/meta-user/recipes-apps/momenta/files/common/cJSON.c:276-350 | a numeral of at most 63 characters with nothing like a number behind it is read for its value |
| `CjsonNumbers.ReadIsNumeral` | project-spec/meta-user/recipes-apps/momenta/files/common/cJSON.c:276-350 | what is read for a number is a numeral of at most 63 characters, and the number is its value |
| `CjsonGrammar.ParsesExactly` | project-spec/meta-user/recipes-apps/momenta/files/common/cJSON.c:1016-1093 | with the NUL required, exactly those texts are accepted that are a byte order mark or none, white space, a value of the grammar nested at most 1000 deep, and white space; and they mean what the grammar says |
| `CjsonGrammar.Accepted` | project-spec/meta-user/recipes-apps/momenta/files/common/cJSON.c:1228-1619 | every value that the grammar spells, with white space wherever it may stand, parses at any depth to its meaning exactly if it is not nested too deeply, and leaves what is behind it |
| `CjsonGrammar.Understood` | project-spec/meta-user/recipes-apps/momenta/files/common/cJSON.c:1228-1619 | every value that is accepted is spelled by the grammar, and means what its syntax tree means |
| `CjsonGrammar.ItemsAccepted` | project-spec/meta-user/recipes-apps/momenta/files/common/cJSON.c:1390-1429 | elements with white space and commas between them, up to the bracket |
| `CjsonGrammar.EntriesAccepted` | project-spec/meta-user/recipes-apps/momenta/files/common/cJSON.c:1544-1601 | members with white space around all their parts, up to the brace |
| `CjsonParser.ParseWithOpts` | project-spec/meta-user/recipes-apps/momenta/files/common/cJSON.c:1016-1093 | the parse buffer's methods together compute the parse function: same verdict, same tree; the byte order mark, the final white space and the required NUL included |
| `CjsonParser.ParseBuffer.SkipWhitespace` | project-spec/meta-user/recipes-apps/momenta/files/common/cJSON.c:979-997 | stepping back from behind the NUL to the NUL leaves exactly the text without its leading white space, and the offset never goes back |
| `CjsonParser.ParseBuffer.ParseNumber` | project-spec/meta-user/recipes-apps/momenta/files/common/cJSON.c:276-350 | at most 63 characters are handed to `strtod`, and the offset moves by what it took |
| `CjsonParser.ParseBuffer.ParseText` | project-spec/meta-user/recipes-apps/momenta/files/common/cJSON.c:714-840 | a literal is read from the buffer and the offset is behind its closing quote |
| `CjsonParser.ParseBuffer.ParseValue` | project-spec/meta-user/recipes-apps/momenta/files/common/cJSON.c:1228-1280 | the value, what is left of the text, and an unchanged depth; the recursion ends because what is left shrinks |
| `CjsonParser.ParseBuffer.ParseArray` | project-spec/meta-user/recipes-apps/momenta/files/common/cJSON.c:1357-1448 | likewise for an array, refused beyond the nesting limit |
| `CjsonParser.ParseBuffer.ParseItems` | project-spec/meta-user/recipes-apps/momenta/files/common/cJSON.c:1390-1429 | the element loop, which starts one character before the first element, collects all elements up to the bracket |
| `CjsonParser.ParseBuffer.ParseObject` | project-spec/meta-user/recipes-apps/momenta/files/common/cJSON.c:1513-1619 | likewise for an object |
| `CjsonParser.ParseBuffer.ParseMembers` | project-spec/meta-user/recipes-apps/momenta/files/common/cJSON.c:1544-1601 | the member loop collects all keys and values up to the brace |
| `CjsonParser.ReadBeforeNul` | project-spec/meta-user/recipes-apps/momenta/files/common/cJSON.c:727-749 | the first scan may run over the NUL, but what it reads is decided by the text alone |
| `CjsonRoundTrip.RoundTrip` | project-spec/meta-user/recipes-apps/momenta/files/common/cJSON.c:1168-1176 | for every tree of null, booleans, integers, NUL-free texts, arrays and objects, the output of both layouts parses completely to the same tree if it is nested at most 1000 deep, and is refused otherwise |
| `CjsonRoundTrip.ValueRoundTrip` | project-spec/meta-user/recipes-apps/momenta/files/common/cJSON.c:1228-1733 | the same for a value anywhere in a text, at any depth, whatever follows it |
| `CjsonRoundTrip.ItemsRoundTrip` | project-spec/meta-user/recipes-apps/momenta/files/common/cJSON.c:1357-1510 | printed elements parse back in order, up to the bracket |
| `CjsonRoundTrip.MembersRoundTrip` | project-spec/meta-user/recipes-apps/momenta/files/common/cJSON.c:1513-1733 | printed members parse back in order with their keys, up to the brace |
| `CjsonRoundTrip.NumberReadsBack` | project-spec/meta-user/recipes-apps/momenta/files/common/cJSON.c:276-350 | an integer of up to 15 digits is read back from its digits and nothing behind them |
| `CjsonRoundTrip.PrintInjective` | project-spec/meta-user/recipes-apps/momenta/files/common/cJSON.c:1283-1354 | two trees never print to the same text, not even across the two layouts |
| `CjsonLayout.PrintIsPretty` | project-spec/meta-user/recipes-apps/momenta/files/common/cJSON.c:1451-1733 | the text of `cJSON_Print` is that of `cJSON_PrintUnformatted` with layout put in by the characters alone: a new line behind each opening brace, behind each comma of an object and before the brace that closes one that is not empty, a tab for each open bracket in front of a line, a blank behind each comma of an array, and a tab behind each colon |
| `CjsonLayout.ValueLaidOut` | project-spec/meta-user/recipes-apps/momenta/files/common/cJSON.c:1283-1354 | the same for a value anywhere in a text, inside any brackets |
| `CjsonLayout.NoLeadingZero` | project-spec/meta-user/recipes-apps/momenta/files/common/cJSON.c:490-553 | no printed number starts with a zero that is not all of it |
| `CjsonPrinter.PrintTree` | project-spec/meta-user/recipes-apps/momenta/files/common/cJSON.c:1103-1165 | `cJSON_Print` and `cJSON_PrintUnformatted` return exactly the printed text and its NUL, and fail only when it does not fit INT_MAX |
| `CjsonPrinter.PrintBuffered` | project-spec/meta-user/recipes-apps/momenta/files/common/cJSON.c:1178-1206 | the same text whatever size the buffer starts with, zero included; a negative size is refused |
| `CjsonPrinter.PrintPreallocated` | project-spec/meta-user/recipes-apps/momenta/files/common/cJSON.c:1208-1225 | it succeeds exactly when the buffer has two places more than the text, and then holds the text and its NUL; the advice in the header to allow five more bytes is not needed |
| `CjsonPrinter.PrintBuffer.Ensure` | project-spec/meta-user/recipes-apps/momenta/files/common/cJSON.c:383-468 | room is granted exactly when the limit allows it, in the same buffer or a larger one that starts with all the old one held |
| `CjsonPrinter.PrintBuffer.UpdateOffset` | project-spec/meta-user/recipes-apps/momenta/files/common/cJSON.c:471-481 | the offset moves to the end of what the callee wrote |
| `CjsonPrinter.PrintBuffer.PrintString` | project-spec/meta-user/recipes-apps/momenta/files/common/cJSON.c:843-962 | the count of the first loop is exactly what the second emits, every write is within what was granted, and the literal is what was printed |
| `CjsonPrinter.PrintBuffer.CopyEscaped` | project-spec/meta-user/recipes-apps/momenta/files/common/cJSON.c:913-959 | the copy loop fills the space between the quotes exactly |
| `CjsonPrinter.PrintBuffer.PrintValue` | project-spec/meta-user/recipes-apps/momenta/files/common/cJSON.c:1283-1354 | the text of the value follows what was in the buffer, closed by a NUL, and printing fails exactly when text, NUL and one more byte pass the limit |
| `CjsonPrinter.PrintBuffer.PrintArray` | project-spec/meta-user/recipes-apps/momenta/files/common/cJSON.c:1451-1510 | likewise for an array |
| `CjsonPrinter.PrintBuffer.PrintObject` | project-spec/meta-user/recipes-apps/momenta/files/common/cJSON.c:1622-1733 | likewise for an object |
| `CjsonPrinter.PrintBuffer.PrintMember` | project-spec/meta-user/recipes-apps/momenta/files/common/cJSON.c:1649-1712 | indentation, key, colon, value and separator of one member |
| `CjsonMinify.Minify` | project-spec/meta-user/recipes-apps/momenta/files/common/cJSON.c:2698-2744 | the aliased in-place loops leave exactly the minified form of the text, with its NUL, where the text was |
| `CjsonMinify.MinifyString` | project-spec/meta-user/recipes-apps/momenta/files/common/cJSON.c:2676-2696 | a string is copied down over what has been read, to where the function takes its end to be; the write position never passes the read position |
| `CjsonMinify.MinifyNext` | project-spec/meta-user/recipes-apps/momenta/files/common/cJSON.c:2707-2739 | each round of the loop writes what the minified form has next and overwrites nothing unread |
| `CjsonMinify.SkipOnelineComment` | project-spec/meta-user/recipes-apps/momenta/files/common/cJSON.c:2649-2660 | the position behind a one-line comment |
| `CjsonMinify.SkipMultilineComment` | project-spec/meta-user/recipes-apps/momenta/files/common/cJSON.c:2662-2674 | the position behind a block comment |
| `CjsonMinify.MinifiedTwice` | project-spec/meta-user/recipes-apps/momenta/files/common/cJSON.c:2698-2744 | minifying a minified text changes nothing, for every text |
| `CjsonMinify.LineCommentGoes` | project-spec/meta-user/recipes-apps/momenta/files/common/cJSON.c:2649-2660 | a comment of one line goes with its end, or with the end of the text, and what is behind it is minified |
| `CjsonMinify.BlockCommentGoes` | project-spec/meta-user/recipes-apps/momenta/files/common/cJSON.c:2662-2674 | a block comment goes up to its first end, or with all that follows, and what is behind it is minified |
| `CjsonMinify.OneCharacter` | project-spec/meta-user/recipes-apps/momenta/files/common/cJSON.c:2707-2739 | outside strings, blanks, tabs, returns, newlines and slashes that start no comment go, and every other character stays |
| `CjsonMinify.MinifiedParses` | project-spec/meta-user/recipes-apps/momenta/files/common/cJSON.c:2698-2744 | an accepted text in which no string literal ends in a backslash parses to the same tree after minifying |
| `CjsonMinify.SpanPastClose` | project-spec/meta-user/recipes-apps/momenta/files/common/cJSON.c:2676-2696 | the end of a string as minify sees it is the parser's, but if the string ends in a backslash it is as much further as the string that would begin there reaches |
| `CjsonMinify.SpanIsClose` | project-spec/meta-user/recipes-apps/momenta/files/common/cJSON.c:2676-2696 | the two ends are the same exactly if the string does not end in a backslash or nothing follows it |
| `CjsonMinify.ValueKept` | project-spec/meta-user/recipes-apps/momenta/files/common/cJSON.c:1228-1280 | a value is read the same from the minified text, and what is left is the minified rest |
| `CjsonPlain.KeptExactly` | project-spec/meta-user/recipes-apps/momenta/files/common/cJSON.c:2676-2744 | for every spelling of a string literal that the parser accepts: minifying keeps the meaning of all accepted texts in which no other literal ends in a backslash, exactly if this one does not |
| `CjsonPlain.TreesKeptExactly` | project-spec/meta-user/recipes-apps/momenta/files/common/cJSON.c:2676-2744 | a text or key survives printing, minifying and parsing in every tree in which no other text or key ends in a backslash, exactly if it does not end in one itself |
| `CjsonPlain.MisreadPair` | project-spec/meta-user/recipes-apps/momenta/files/common/cJSON.c:2690-2694 | for every text that ends in a backslash, the array of it and a text of one blank is printed, accepted, and after minifying parses with the blank lost |
| `CjsonPlain.PairMinified` | project-spec/meta-user/recipes-apps/momenta/files/common/cJSON.c:2676-2696 | minify takes the quote behind a literal that ends in a backslash for an escaped one, so that the blank in the next string stands outside strings and goes |
| `CjsonPlain.PrintMinified` | project-spec/meta-user/recipes-apps/momenta/files/common/cJSON.c:2698-2744 | whatever follows a printed value, a literal in it ends in a backslash exactly if a text or key of the tree does; and if none does, minifying the layout of `cJSON_Print` gives that of `cJSON_PrintUnformatted` |
| `CjsonPlain.MinifiedLayout` | project-spec/meta-user/recipes-apps/momenta/files/common/cJSON.c:1168-1176 | the same for a whole printed text |
| `CjsonPlain.LastEscaped` | project-spec/meta-user/recipes-apps/momenta/files/common/cJSON.c:913-957 | an escaped text ends in a backslash exactly if the text does |
| `CjsonCompare.CompareDecides` | project-spec/meta-user/recipes-apps/momenta/files/common/cJSON.c:2846-2969 | with integer numbers two trees compare equal exactly when they have the same canonical form, objects taken as maps under the chosen case rule, and neither gives one key two different values |
| `CjsonCompare.DistinctCompare` | project-spec/meta-user/recipes-apps/momenta/files/common/cJSON.c:2846-2969 | with distinct keys the comparison is equality of the trees as arrays and maps |
| `CjsonCompare.CompareEquivalence` | project-spec/meta-user/recipes-apps/momenta/files/common/cJSON.c:2846-2969 | the comparison is symmetric and transitive whatever keys occur, and a tree equals its copy exactly if no object of it gives one key two different values |
| `CjsonCompare.ObjectDecides` | project-spec/meta-user/recipes-apps/momenta/files/common/cJSON.c:2928-2964 | covering each other is equality as maps |
| `CjsonCompare.GetObjectItem` | project-spec/meta-user/recipes-apps/momenta/files/common/cJSON.c:1788-1818 | the first member whose key is the name, or is the name but for the case of letters, and none exactly if there is no such member |
| `CjsonCompare.CaseInsensitiveStrcmp` | project-spec/meta-user/recipes-apps/momenta/files/common/cJSON.c:104-125 | zero exactly for texts of one length that at each place have the same character, or the capital and the small form of one letter |
| `CjsonCompare.LowerEqual` | project-spec/meta-user/recipes-apps/momenta/files/common/cJSON.c:104-125 | the same for the folded keys that the canonical form is made of |
| `CjsonCompare.FindIsCanonical` | project-spec/meta-user/recipes-apps/momenta/files/common/cJSON.c:1788-1818 | the lookup agrees with the canonical map |
| `CjsonCompare.PlainCompare` | project-spec/meta-user/recipes-apps/momenta/files/common/cJSON.c:2846-2927 | trees of integers, texts and arrays compare equal exactly if they are the same |
| `CjsonCompare.ObjectCompares` | project-spec/meta-user/recipes-apps/momenta/files/common/cJSON.c:2928-2964 | objects compare equal exactly if each member of either finds its name in the other, at the first place it has there, with an equal value |
| `CjsonCompare.NumbersCompare` | project-spec/meta-user/recipes-apps/momenta/files/common/cJSON.c:484-487 | numbers compare equal exactly if they are at most 10^-16 apart |
| `CjsonDuplicate.Duplicate` | project-spec/meta-user/recipes-apps/momenta/files/common/cJSON.c:2570-2647 | the copy consists of new nodes only, holds what the original holds at every level, is properly linked in both directions, and is no reference; without recursion it has no children |
| `CjsonDuplicate.CopyChildren` | project-spec/meta-user/recipes-apps/momenta/files/common/cJSON.c:2613-2637 | the loop copies the children in order |
| `CjsonDuplicate.Node.AttachNext` | project-spec/meta-user/recipes-apps/momenta/files/common/cJSON.c:2621-2634 | a copied child is crosswired behind the last one without disturbing any tree below |
| `CjsonDuplicate.CopyCompares` | project-spec/meta-user/recipes-apps/momenta/files/common/cJSON.c:2570-2647 | a recursive copy of a tree with integer numbers compares equal to it exactly if no object of it gives one key two different values, hence whenever keys are distinct |
| `W5Frames.CalcCheckSum` | project-spec/meta-user/recipes-apps/api-cmd/files/protocol.h:358-367 | the sum of the bytes modulo 256 |
| `W5Frames.CheckSumShifts` | project-spec/meta-user/recipes-apps/api-cmd/files/protocol.h:358-367 | replacing one byte shifts the sum by the difference of the bytes |
| `W5Frames.CheckSumIsSum` | project-spec/meta-user/recipes-apps/api-cmd/files/protocol.h:358-367 | the checksum is the sum of all bytes modulo 256 |
| `W5Frames.LowestFirst` | project-spec/meta-user/recipes-apps/api-cmd/files/protocol_uart.c:177-180 | a size field holds the lowest byte first |
| `W5Frames.BuildUartCommand` | project-spec/meta-user/recipes-apps/api-cmd/files/protocol_uart.c:133-190 | the UART buffer is the start byte, the I2C frame of the same command and the end byte |
| `W5Frames.BuildUartQuery` | project-spec/meta-user/recipes-apps/api-cmd/files/protocol_uart.c:164-176 | likewise for a query, whose checksum and end byte stand at fixed places |
| `W5Frames.BuildI2cCommand` | project-spec/meta-user/recipes-apps/api-cmd/files/protocol_i2c.c:118-178 | the I2C buffer is version, type, size and payload, and the checksum over all of it |
| `W5Frames.RepliesAgree` | project-spec/meta-user/recipes-apps/api-cmd/files/protocol_uart.c:293-343 | both transports decide alike on the same response |
| `W5Frames.ReplyDecides` | project-spec/meta-user/recipes-apps/api-cmd/files/protocol_i2c.c:268-316 | what comes of each response: a general error for the frame, a checksum error, or what its acknowledgement code of 1 to 4 says; other codes pass without data |
| `W5Frames.CorruptionNoticed` | project-spec/meta-user/recipes-apps/api-cmd/files/protocol_i2c.c:268-316 | one wrong byte in a sound I2C response is never accepted: in version or type it is a general error, elsewhere the checksum fails |
| `W5Frames.UartCorruptionNoticed` | project-spec/meta-user/recipes-apps/api-cmd/files/protocol_uart.c:293-343 | the same for a UART response, its start and end byte included |
| `W5Link.ReadResponse` | project-spec/meta-user/recipes-apps/api-cmd/files/protocol_uart.c:261-283 | however the response is cut into pieces, what is put together is what was sent; at most eleven reads for each byte of the response, and no giving up before eleven reads in a row have given nothing |
| `W5Link.ReceiveUart` | project-spec/meta-user/recipes-apps/api-cmd/files/protocol_uart.c:233-343 | on a link that does not fail, the decision depends on the bytes alone and not on how they are cut up |
| `W5Link.ReceiveI2c` | project-spec/meta-user/recipes-apps/api-cmd/files/protocol_i2c.c:208-316 | likewise for I2C |
| `W5Link.Process` | project-spec/meta-user/recipes-apps/api-cmd/files/protocol_uart.c:510-579 | the command is sent with the same frame until an answer settles it: if answer k is the first that neither is busy nor complains about the checksum, and fewer than eight before it complain, that is the result after k + 1 frames; if the eighth complaint comes first, a checksum failure |
| `W5Link.OutcomeSettled` | project-spec/meta-user/recipes-apps/api-cmd/files/protocol_uart.c:534-558 | the same of the answers alone, for any number of tries: busy answers cost none |
| `W5Link.OutcomeExhausted` | project-spec/meta-user/recipes-apps/api-cmd/files/protocol_uart.c:534-558 | when the last try meets a complaint, that is the result |
| `W5Link.OutcomeSilent` | project-spec/meta-user/recipes-apps/api-cmd/files/protocol_uart.c:534-558 | when the device falls silent before that, time runs out |
| `W5Link.QueryReads` | project-spec/meta-user/recipes-apps/api-cmd/files/w5_com.c:564-582 | from the frame of a query its message id, chunk number and size can be read, and its checksum is right |
| `W5Link.ApiReads` | project-spec/meta-user/recipes-apps/api-cmd/files/w5_com.c:511-523 | from the frame of a call its code, chunk number, size and data can be read, and its checksum is right |
| `W5Link.CallApi` | project-spec/meta-user/recipes-apps/api-cmd/files/w5_com.c:489-533 | what the caller gets, and what is written, as a function of the device's answers alone |
| `W5Link.CallQuery` | project-spec/meta-user/recipes-apps/api-cmd/files/w5_com.c:535-613 | likewise for a query: return code, status, chunk number, the check of the message id, and what is copied into the caller's buffer, which is the number of bytes that the device says are good, or an overrun of a buffer |
| `W5Link.ApiCallsAgree` | project-spec/meta-user/recipes-apps/api-cmd/files/w5_com.c:489-533 | the same API call over both transports to devices that answer alike gives the same result, and on the UART each frame has a start and an end byte around it |
| `W5Link.QueriesAgree` | project-spec/meta-user/recipes-apps/api-cmd/files/w5_com.c:535-613 | the same for a query, down to what stands in the callers' buffers |
| `W5Link.AnswerArrives` | project-spec/meta-user/recipes-apps/api-cmd/files/w5_com.c:597-607 | status and chunk number that a device encodes in its response, and as much of its data as it says is good, are what the caller gets; if the device says that more is good than was asked for, the unchecked copy overruns a buffer |
| `W5Link.RefusalArrives` | project-spec/meta-user/recipes-apps/api-cmd/files/w5_com.c:592-609 | a refusal by the device reaches the caller as the error it stands for, and an answer to another message as a mismatch, both without data |
| `W5Link.CopyStaysInside` | project-spec/meta-user/recipes-apps/api-cmd/files/w5_com.c:603-607 | for requests below two gigabytes the copy stays inside the receive buffer and the caller's buffer exactly if the device does not say that more bytes are good than were asked for |
| `W5Link.ClaimsOneTooMany` | project-spec/meta-user/recipes-apps/api-cmd/files/w5_com.c:603-607 | for any request, an otherwise sound response that says one byte more is good makes the copy overrun |
| `W5Link.OverlongReplies` | project-spec/meta-user/recipes-apps/api-cmd/files/protocol_uart.c:293-343 | a response with more bytes than asked for is judged by I2C on the bytes asked for and refused by the UART as unterminated, so that the two agree exactly if the first byte too many is an end byte or the response is refused as a general error anyway |

## Left out

- HrtimerProtocol.Ownership: `hrtimer_check_target` is left open in this model, so both its outcomes are possible; what it is for is modelled in `HrtimerCpu`. `get_target_base` is a parameter of the call.
- HrtimerOutcome.CancelDecides: the lock-free check with which a cancel may return 0 at once is the caller of `hrtimer_active` above, not a part of the cancelling thread.
- HrtimerProtocol.ActivityCheckIsSound: weak memory ordering is not modelled; every access is a sequentially consistent step.
- HrtimerCpu.NeverArmedLate: clock-set events, CPU hotplug (`migrate_hrtimer_list`), low-resolution mode and the retry and hang detection behind a failed `tick_program_event` are not modelled; clock offsets are fixed and no sum wraps around.
- HrtimerCpu.CpuBase.NextEventBase: the bits of `active_bases` are a sequence of booleans, and the red-black tree of a base is a sorted sequence.
- HrtimerForward.Timer.Forward: where 64-bit numbers are not divided directly, a step behind now is required to fit 63 bits, since the quotient that may be one too high can otherwise make the first addition wrap around, which is not modelled; soft expiries are not behind hard ones and no time is negative.
- hrtimer: debug objects, tracing, PREEMPT_RT waiters, nanosleep and the sleeper interface.
- RpmsgTx.AnyRun: signal, timeout and scheduling are free choices of the environment; the virtqueue is its used ring, its callback switch and the promise that an enabled queue signals every returned buffer.
- RpmsgEndpoint.Endpoints.CreateEpt: addresses are unbounded natural numbers; address space exhaustion, negative ids and allocation failure do not occur.
- rpmsg: scatterlists, message headers and their length check, name service announcements, device registration and removal.
- CjsonRoundTrip.RoundTrip: numbers that are no integers of up to 15 digits are left out, since the formatting of floating point numbers is not part of this model; so is the sign of a negative zero.
- CjsonGrammar.ParsesExactly: the language is that of the code, which takes more than JSON: control characters as white space, numerals such as 01, .5 behind a sign and 1., and raw control characters in strings.
- CjsonParser.ParseBuffer.ParseNumber: `strtod` is exact here, without rounding or overflow to infinity, and the locale's decimal point is a point.
- CjsonParser.ParseWithOpts: the position of a parse error is not modelled, nor is allocation failure; the parser builds values, and the child and sibling pointers of its nodes appear only in `CjsonDuplicate`.
- CjsonPrinter.PrintBuffer.Ensure: only hooks with a reallocation function, the default, are modelled; texts and keys are never null pointers.
- CjsonPrinter.PrintBuffer.PrintValue: as for the round trip, numbers are integers of up to 15 digits; what `sprintf` makes of them is their decimal digits.
- CjsonPrinter.PrintBuffer.PrintArray: integers of up to 15 digits only, likewise.
- CjsonPrinter.PrintBuffer.PrintObject: integers of up to 15 digits only, likewise.
- CjsonPrinter.PrintBuffer.PrintMember: integers of up to 15 digits only, likewise.
- CjsonPrinter.PrintTree: integers of up to 15 digits only, likewise.
- CjsonPrinter.PrintBuffered: integers of up to 15 digits only, likewise.
- CjsonPrinter.PrintPreallocated: integers of up to 15 digits only, likewise.
- CjsonMinify.MinifiedParses: for a single text the proviso is sufficient, not necessary: a misjudged string end does no harm where no white space or slash is affected by it. Which strings are safe in all texts is stated exactly in `CjsonPlain`.
- CjsonCompare.CompareDecides: values are compared, so the shortcut for one and the same node does not appear; with numbers that are no integers, comparison within the double precision constant is not transitive and nothing is claimed.
- CjsonDuplicate.Duplicate: strings are values, so copying them and the flag for constant keys do not appear.
- cJSON: Raw items, item references on input of anything but `cJSON_Duplicate`, the array, object and replace interfaces, hooks.
- W5Link.ReadResponse: the link is full duplex; reading back the echo of a half-duplex UART, duplex detection, delays and printing are left out.
- W5Link.Process: the device has finitely many answers, so it is not busy for ever, and each has the length the caller asked for; the queue holds one command, as both callers make it.
- W5Link.CallApi: the device's responses have the length the caller asked for.
- W5Link.ApiCallsAgree: likewise; without it the transports need not agree, as `OverlongReplies` shows.
- W5Link.QueriesAgree: likewise.
- W5Link.CallQuery: responses have the length the caller asked for. After an overrun nothing is said about any memory. The caller's buffer has room for what was asked for, pointers that may be null are taken to be there, and sizes have 64 bits: the device's number is put together in a signed 32-bit number, so that one of 2^31 or more becomes a very large size. An acknowledgement code that is none of the four passes as success without setting the response id, as in the code; `stale` is what the unset id then holds.
- W5Frames.BuildUartCommand: a query's payload has seven bytes, which the fixed offsets of the checksum assume; both callers keep to it.
- W5Frames.BuildI2cCommand: likewise.
- The command-line tools, demos, boot loader code and build files of the repository: input, output and register access with little state of their own.
