# Model of an RTSP/RTP server and its reactor library

The repository streams H.264 files over RTP inside a TCP connection, on a copy of the muduo reactor
library. The project models its state machines and proves what they promise to each other and to clients:

- `Calendar` (`Calendar.dfy`): Gregorian dates as Julian day numbers, and UTC break-down of times, with C++
  truncating division.
- `Buffer`: the compacting byte buffer as an array and two indices, refining a sequence of bytes.
- `TcpConnection`: the output path of one connection under partial and failing writes, and its shutdown.
- `ConnectionPhase`, `ServerSteps`, `TcpServer`: the close protocol across the loop of the acceptor and the I/O
  loops, and the server with its connection objects, proved to follow it.
- `LoopSteps`, `EventLoop`: the hand-off of functors between threads through a locked vector and an eventfd.
- `TimerPlan`, `TimerQueue`, `TimerHistory`: timers by number; the queue with its two ordered sets of addresses,
  manual deletion and one kernel timer, proved to follow the plan; and a queue with the history of its calls.
- `RtpFormat`, `RtpStream`, `RtpHistory`, `RtpSender`, `RtpEndToEnd`: FU-A fragments, RTP headers and `$` framing with
  a receiver; one connection as a state machine; what calls from its creation on make it send; the sending classes
  with their shared and private packet buffers; and all of it together.
- `AsyncLogging`: the double-buffered log.
- `PollTable`, `Pollers`: the poll array with swap-remove, the epoll registration machine, and their agreement.
- `H264File`, `H264Units`: the reader that cuts a file into access units, and the units as an encoder writes them.
- `Bytes`: bytes, the masks used on them, and facts on sequences.

Where the source changes state step by step the model is a class whose methods do the same and are specified by
a pure step function; statements on all runs are lemmas on that function. Concurrency is modelled as interleaving
of atomic steps: a locked section, one write to an eventfd, one queued functor. The kernel answers any way its
contract allows: a write takes any part of what is offered or fails, but takes nothing after a shutdown; a read
delivers any bytes that fit; poll reports only channels that are registered with some interest.

## What the code does that its design does not say

- `getYearMonthDay` gives impossible dates below day -32044, `weekDay` is negative below day -1 unless it is zero,
  and the day of the year is one short on all of year -4800 (`Calendar.ValidExactlyFromDay32044`,
  `Calendar.WeekDayCycles`, `Calendar.FirstYearIsOneShort`).
- A cancel that reaches the loop before the timer does is forgotten (`TimerPlan.CancelHoldsExactly`).
- Expirations of zero or less count as invalid in `reset`, which then arms nothing and strands the timer; with a
  positive clock that cannot be (`TimerQueue.Queue.HandleRead`, `TimerQueue.Queue.HandleQuietRead`).
- A functor queued by the thread of the loop before `loop()` sleeps through the first poll, and a quit before
  `loop()` is lost (`LoopSteps.StrandedBeforeLoopExactly`, `LoopSteps.QuitBeforeLoopIsForgotten`).
- A report with POLLHUP and POLLPRI but without POLLIN calls `handleClose` twice when the read then returns
  nothing (`ServerSteps.FailsExactlyWhenDoubled`, `ServerSteps.DoubledReport`).
- `send` in another thread tests the state, and then queues a functor bound to the bare connection. A message queued
  after the server has removed the connection stands behind its end, and only such a message does
  (`ServerSteps.RunIsSafeExactly`, `ServerSteps.MessageBehindTheEnd`).
- `connectDestroyed` on a half-closed connection would remove a channel that still has interest
  (`TcpConnection.TcpConnection.ConnectDestroyed`).
- A frame within the size limit that is empty or has type 28 cannot be received (`RtpFormat.OnlyDeliverable`).
- A file that holds one access unit only is never delivered, and a file or buffer of one to four bytes makes
  `bytesRead - 5` wrap (`H264File.H264File.ReadFrame`, `H264File.OneUnitOnly`, `H264File.ScansStayInsideExactly`).
- A picture that ends in a zero byte before a short start code loses that byte to the next picture, and a last slice
  of one byte behind its header is not seen (`H264Units.ReadBack`, `H264Units.ZeroJoins`,
  `H264Units.ShortSliceUnseen`).
- A second teardown stops nothing: what a play starts after the first is still sent (`RtpHistory.ActiveExactly`,
  `RtpHistory.SecondTeardown`).
- A channel first registered with the poll array without interest is not ignored, and fails an assertion if it is
  removed before it is updated again (`PollTable.RemovalFailsExactly`, `PollTable.FailingRemoval`).
- A channel object removed from the poll array keeps its index, so adding the same object again fails an assertion;
  the epoll registration takes it back (`Pollers.PollPoller.RemoveChannel`, `Pollers.EPollPoller.RemoveChannel`).

## Model

| member | source | states |
|---|---|---|
| Calendar.NextDayNumber | 3rdparty/muduo/base/Date.cc:21-28 | The calendar day after a valid date (leap years by the Gregorian rule, stated without the formula) has the next day number, for every year the formula covers. |
| Calendar.DayNumberInjective | 3rdparty/muduo/base/Date.cc:21-28 | Two valid dates with the same day number are the same date. |
| Calendar.DateOfDayNumber | 3rdparty/muduo/base/Date.cc:30-43 | For every day number from -32044 on, the date computed is valid and converting it back gives the number. |
| Calendar.DayNumberOfDate | 3rdparty/muduo/base/Date.cc:21-43 | For every valid date in that range, converting to a day number and back gives the date. |
| Calendar.NextDate | 3rdparty/muduo/base/Date.cc:30-43 | Consecutive day numbers give consecutive calendar days. |
| Calendar.ValidExactlyFromDay32044 | 3rdparty/muduo/base/Date.cc:30-43 | The conversion gives a valid date if and only if the day number is at least -32044. |
| Calendar.NoOverflowExactly | 3rdparty/muduo/base/Date.cc:21-43 | No product, quotient, sum or difference overflows 32 bits, in converting a day number to a date or its date back, if and only if the day number lies in -536902956..536838867. |
| Calendar.WeekDayCycles | 3rdparty/muduo/base/Date.h:95-99 | The weekday lies in 0..6 exactly from day -1 on and where the remainder vanishes, and advances by one modulo 7; below, truncation makes it negative. |
| Calendar.EpochIsThursday | 3rdparty/muduo/base/Date.cc:45 | The day-number constant of 1970-01-01 is what the formula gives, and that day is a Thursday. |
| Calendar.FillHms | 3rdparty/muduo/base/TimeZone.cc:76-83 | Splits seconds of a day: hour, minute and second are in range and recombine to the input. |
| Calendar.ToUtcTime | 3rdparty/muduo/base/TimeZone.cc:322-348 | For every time, negative ones included: date and time of day are in range if and only if the day number is at least -32044, and then converting back gives the time, the day of the year is in range for the year, and it counts the days before the date if and only if the year is after -4800; the weekday is in range if and only if the day number is at least -1 or the remainder vanishes. |
| Calendar.UtcFitsExactly | 3rdparty/muduo/base/TimeZone.cc:322-348 | The cast of the day count loses nothing and no 32-bit value of the break-down overflows if and only if the time lies within the seconds of the days -539343544..534398279 from the epoch. |
| Calendar.DayOfYear | 3rdparty/muduo/base/TimeZone.cc:341-346 | After year -4800, subtracting the day number of 1 January gives the ordinal day of every date. |
| Calendar.OrdinalDayRange | 3rdparty/muduo/base/TimeZone.cc:341-346 | The ordinal day of a date is within the length of its year, leap or not. |
| Calendar.FirstYearIsOneShort | 3rdparty/muduo/base/TimeZone.cc:341-346 | On every covered date of year -4800 the day of the year is one too small, because 1 January lies before the first covered day. |
| Buffer.SignedOfBigEndian | 3rdparty/muduo/net/Buffer.h:240-340 | Peeking a written integer gives it back, for every value of the width, negative ones included. |
| Buffer.BigEndianOfSigned | 3rdparty/muduo/net/Buffer.h:240-340 | Writing the integer that a string of bytes stands for gives those bytes. |
| Buffer.NetworkOrder | 3rdparty/muduo/net/Buffer.h:240-264 | In figures, for the widths in use: the most significant byte comes first. |
| Buffer.Buffer.constructor | 3rdparty/muduo/net/Buffer.h:58-66 | A new buffer is empty, with the requested writable room and eight prependable bytes. |
| Buffer.Buffer.MoveDown | 3rdparty/muduo/net/Buffer.h:418-420 | The overlapping copy to the front keeps the readable bytes. |
| Buffer.Buffer.MakeSpace | 3rdparty/muduo/net/Buffer.h:406-425 | Contents stay, the requested room is there, the array grows only when the free bytes at both ends do not suffice; the assertion on the reader index holds even after prepends. |
| Buffer.Buffer.EnsureWritableBytes | 3rdparty/muduo/net/Buffer.h:210-217 | Contents stay and the room is there; nothing moves when it was there before. |
| Buffer.Buffer.Append | 3rdparty/muduo/net/Buffer.h:198-203 | The readable bytes are the old ones followed by the data. |
| Buffer.Buffer.Prepend | 3rdparty/muduo/net/Buffer.h:370-376 | The readable bytes are the data followed by the old ones. |
| Buffer.Buffer.Unwrite | 3rdparty/muduo/net/Buffer.h:231-235 | The last bytes go. |
| Buffer.Buffer.Retrieve | 3rdparty/muduo/net/Buffer.h:129-140 | The first bytes go, also when all are taken and the indices are reset. |
| Buffer.Buffer.RetrieveAsString | 3rdparty/muduo/net/Buffer.h:180-186 | The string and what remains are together the old contents. |
| Buffer.Buffer.AppendInt | 3rdparty/muduo/net/Buffer.h:240-264 | Appends the integer in network byte order. |
| Buffer.Buffer.PrependInt | 3rdparty/muduo/net/Buffer.h:344-368 | Prepends the integer in network byte order. |
| Buffer.Buffer.PeekInt | 3rdparty/muduo/net/Buffer.h:306-339 | Gives the one integer of the width whose network form is at the front. |
| Buffer.Buffer.ReadInt | 3rdparty/muduo/net/Buffer.h:270-300 | The old contents are the integer read, in network form, followed by the new contents. |
| Buffer.Buffer.FindCRLF | 3rdparty/muduo/net/Buffer.h:90-104 | Finds the first line end from a position, or none exists. |
| Buffer.Buffer.FindLastCRLF | 3rdparty/muduo/net/Buffer.h:107-110 | Finds the last line end, or none exists. |
| Buffer.Buffer.Swap | 3rdparty/muduo/net/Buffer.h:71-76 | The two buffers exchange arrays, indices and so contents. |
| Buffer.Buffer.Shrink | 3rdparty/muduo/net/Buffer.h:378-385 | Contents stay, the reserve is writable, and the array is no larger than that needs. |
| Buffer.Buffer.ReadFd | 3rdparty/muduo/net/Buffer.cc:25-57 | Whatever a scatter read delivered, into the free bytes and the overflow area, is appended in order; a failed read changes nothing. |
| TcpConnection.TcpConnection.constructor | 3rdparty/muduo/net/TcpConnection.cc:48-74 | A new connection is connecting, owes nothing and has an empty output buffer. |
| TcpConnection.TcpConnection.SendInLoop | 3rdparty/muduo/net/TcpConnection.cc:154-207 | Under every answer of the kernel: what it took, followed by the output buffer, is all that was accepted; a message is accepted whole unless its direct write found the pipe broken; the write-complete and high-water callbacks are posted exactly on completion and on crossing the mark. |
| TcpConnection.TcpConnection.HandleWrite | 3rdparty/muduo/net/TcpConnection.cc:383-421 | The front of the buffer goes to the kernel; write interest ends with the last byte, and a closing connection is then shut down, and only then. |
| TcpConnection.TcpConnection.Send | 3rdparty/muduo/net/TcpConnection.cc:107-126 | A message is taken on only while connected; from another thread it is posted unchanged. |
| TcpConnection.TcpConnection.Shutdown | 3rdparty/muduo/net/TcpConnection.cc:209-228 | In the loop the socket is shut down at once if and only if everything accepted has been written; another thread posts that to the loop instead. |
| TcpConnection.TcpConnection.ForceClose | 3rdparty/muduo/net/TcpConnection.cc:254-262 | An open connection starts to close and posts one close; otherwise nothing happens. |
| TcpConnection.TcpConnection.ForceCloseWithDelay | 3rdparty/muduo/net/TcpConnection.cc:264-274 | An open connection starts to close and a timer will force it. |
| TcpConnection.TcpConnection.DelayedForceClose | 3rdparty/muduo/net/TcpConnection.cc:264-274 | When the timer expires one close is posted if the connection is still open. |
| TcpConnection.TcpConnection.ForceCloseInLoop | 3rdparty/muduo/net/TcpConnection.cc:276-284 | Closes an open connection, and does nothing to a closed one. |
| TcpConnection.TcpConnection.HandleClose | 3rdparty/muduo/net/TcpConnection.cc:423-436 | Reports DOWN once, after UP, and calls the close callback once; no interest is left. |
| TcpConnection.TcpConnection.ConnectEstablished | 3rdparty/muduo/net/TcpConnection.cc:338-347 | The connection is connected, reads, and reports UP first and once. |
| TcpConnection.TcpConnection.ConnectDestroyed | 3rdparty/muduo/net/TcpConnection.cc:349-360 | The channel can be removed if and only if the connection is not half closed; DOWN is reported only if it was not before. |
| TcpConnection.TcpConnection.RunTask | 3rdparty/muduo/net/TcpConnection.cc:119-124 | A posted task runs: a message from another thread is sent as if sent here, a shutdown takes place unless something waits to be written, a close closes, and every invariant above is kept. |
| ServerSteps.FailsExactlyWhenDoubled | 3rdparty/muduo/net/TcpServer.cc:71-117 | From every state of the protocol, a step breaks an assertion if and only if one poll report closes the same connection twice; every other step keeps the invariant. |
| ServerSteps.ClosesExactly | 3rdparty/muduo/net/Channel.cc:83-118 | A report that breaks nothing closes its connection, tells DOWN and queues or does one removal, if and only if it says hang-up without POLLIN, or POLLIN or POLLPRI with nothing to read; any other changes nothing. |
| ServerSteps.AcceptEstablishes | 3rdparty/muduo/net/TcpServer.cc:71-98 | A connection of the acceptor's loop is connected at once and told UP; any other is connecting and has one task in its own loop. |
| ServerSteps.ShutdownHalfCloses | 3rdparty/muduo/net/TcpConnection.cc:209-218 | shutdown takes effect exactly on a connected connection; from another thread it queues one task for its loop. |
| ServerSteps.TrafficQueues | 3rdparty/muduo/net/TcpConnection.cc:107-126 | What a connection posts comes behind all that its loop has queued, complete and in order. |
| ServerSteps.Lifecycle | 3rdparty/muduo/net/TcpConnection.cc:338-360 | Over every interleaving of the loops: a connection is told UP, then DOWN, each at most once, and is destroyed at most once and only after DOWN; no assertion fails; a channel known to the poller is held by the map or a queued task that owns it, and one that nobody holds is disconnected and destroyed. Messages and shutdowns from other threads, bound to the bare object, are no owners. |
| ServerSteps.PostIsSafeExactly | 3rdparty/muduo/net/TcpConnection.cc:107-126 | In every state of the protocol, a message or shutdown queued now comes before the end of its connection if and only if the server has not removed that connection. |
| ServerSteps.StepIsSafeExactly | 3rdparty/muduo/net/TcpConnection.cc:107-126 | Every step keeps all queued messages and shutdowns before the end of their connections, except exactly the queueing of a message after the removal. |
| ServerSteps.RunIsSafeExactly | 3rdparty/muduo/net/TcpConnection.cc:107-126 | Over every interleaving: no message or shutdown ever stands behind the end of its connection if and only if no message whose test of the state came earlier is queued after the removal. |
| ServerSteps.RawTaskFindsConnection | 3rdparty/muduo/net/TcpConnection.cc:107-126 | In such runs a message or shutdown that waits in a queue, though bound to the bare object, has no destruction of its connection before it; the connection is not destroyed, and the map or a task that owns it keeps it alive. |
| ServerSteps.MessageBehindTheEnd | 3rdparty/muduo/net/TcpConnection.cc:107-126 | A run where the test passes, the connection is closed and removed, and the message is queued behind its end. |
| ServerSteps.DestroyIsQueued | 3rdparty/muduo/net/TcpServer.cc:106-117 | The destruction of a connection is queued in its own loop if and only if it is disconnected, removed and still known to the poller. |
| ServerSteps.DoubledReport | 3rdparty/muduo/net/Channel.cc:83-118 | POLLHUP with POLLPRI, without POLLIN, and a read that returns nothing break the assertion. |
| ServerSteps.Quiescent | 3rdparty/muduo/net/TcpServer.cc:71-117 | When no task is queued, the map holds exactly the open connections and every other has been destroyed. |
| ServerSteps.NewKeeps | 3rdparty/muduo/net/TcpServer.cc:71-98 | A new connection keeps the invariant: one task for it, in its own loop, unless established at once. |
| ServerSteps.CloseKeeps | 3rdparty/muduo/net/TcpConnection.cc:423-436 | Closing keeps it: exactly one removal is queued or done, across the two loops. |
| ServerSteps.NextIsAwaited | 3rdparty/muduo/net/TcpServer.cc:106-117 | The next task of every loop is one its connection awaits in that loop, exactly as often as it is queued, so the assertions in it hold. |
| TcpServer.TcpServer.NewConnection | 3rdparty/muduo/net/TcpServer.cc:71-98 | A fresh connection object under a new name enters the map; it is established at once or by one task of its loop; map, loops and all connection objects stay as the protocol says. |
| TcpServer.TcpServer.RemoveConnectionInLoop | 3rdparty/muduo/net/TcpServer.cc:106-117 | Exactly one entry of the map goes, and the destruction is queued in the loop of the connection. |
| TcpServer.TcpServer.HandleEvent | 3rdparty/muduo/net/Channel.cc:83-118 | Hang-up and readability of every report, in this order: the second close of a doubled report breaks its assertion, and no other report does; otherwise the connection object is closed and told DOWN if and only if the report says hang-up without POLLIN, or POLLIN or POLLPRI with nothing to read, and the objects follow the protocol by one step. |
| TcpServer.TcpServer.HandleChannel | 3rdparty/muduo/net/Channel.cc:83-118 | The whole of every report, writability last: the same assertion breaks exactly for doubled reports; the same reports close the object; otherwise the writing adds one exchange of bytes to that step. |
| TcpServer.TcpServer.Shutdown | 3rdparty/muduo/net/TcpConnection.cc:209-218 | shutdown from any thread on any connection: its object and the protocol half close together, another thread queues the rest in the loop of the connection, and no other connection changes. |
| TcpServer.TcpServer.ForceCloseWithDelay | 3rdparty/muduo/net/TcpConnection.cc:264-274 | The same half close, with a timer to end it. |
| TcpServer.TcpServer.ForceClose | 3rdparty/muduo/net/TcpConnection.cc:254-262 | forceClose, also from its timer: an open connection object asks for one close, queued in its loop. |
| TcpServer.TcpServer.RunTask | 3rdparty/muduo/net/EventLoop.cc:254-269 | Every task of the server that a loop has queued can run: the assertions in its body hold for the connection object, and objects, map and loops follow the protocol. |
| TcpServer.TcpServer.RunOwn | 3rdparty/muduo/net/EventLoop.cc:254-269 | Every message, shutdown or callback that a connection has queued can run on its object, under every answer of the kernel; what it posts is queued, and all connections, kept apart, follow the protocol. |
| TcpServer.TcpServer.Transfers | 3rdparty/muduo/net/TcpConnection.cc:107-207 | Any send, drain or posted task on one connection leaves every connection of the server as the protocol says and no two sharing anything; what it posts is queued in order. |
| TcpServer.TcpServer.Queue | 3rdparty/muduo/net/TcpConnection.cc:107-126 | What a connection posts enters the queue of its loop as one step: a message only while it is connected. |
| TcpServer.TcpServer.QueueLate | 3rdparty/muduo/net/TcpConnection.cc:107-126 | A message queued some time after its test of the state is one step as well, and the objects stay as the protocol says. |
| TcpServer.TcpServer.ToldInOrder | 3rdparty/muduo/net/TcpConnection.cc:338-360 | Whatever the loops did and whatever bytes went over any connection, every connection object was told UP first and DOWN last, each at most once; it is destroyed at most once and after DOWN; while the poller knows its channel the map or a task that owns it holds it. |
| TcpServer.TcpServer.FindsObject | 3rdparty/muduo/net/TcpConnection.cc:107-126 | While messages are queued before the removal: every message or shutdown that waits in a loop has its connection object, not destroyed, held by another, and not destroyed by any task before it. |
| TcpServer.CloseOne | 3rdparty/muduo/net/TcpConnection.cc:423-436 | The connection class refines the protocol when it closes: the view of the object becomes the closed one, and no other object changes. |
| TcpServer.CloseNowOne | 3rdparty/muduo/net/TcpConnection.cc:276-284 | The same for a close that forceClose queued, which does nothing to a connection that closed before. |
| TcpServer.DestroyOne | 3rdparty/muduo/net/TcpConnection.cc:349-360 | The same for connectDestroyed: the channel has no interest left when it is removed. |
| TcpServer.EstablishOne | 3rdparty/muduo/net/TcpConnection.cc:338-347 | The same for connectEstablished. |
| TcpServer.Exchange | 3rdparty/muduo/net/TcpConnection.cc:107-207 | Whatever bytes a connection sends, writes or is handed, its life as the protocol sees it stays; it posts no close and no shutdown, and a message only while connected. |
| TcpServer.ExchangeOne | 3rdparty/muduo/net/TcpConnection.cc:107-207 | Every other connection of the server is untouched by that, its output buffer too, and a buffer that grew is nobody else's. |
| LoopSteps.PushOrder | 3rdparty/muduo/net/EventLoop.cc:160-171 | Over every interleaving, functors run, rest of the batch and pending are together the push order: none lost, repeated or reordered. |
| LoopSteps.NothingLost | 3rdparty/muduo/net/EventLoop.cc:160-171 | Over every interleaving from the creation of a loop on: what has run, the rest of the batch and what waits are together exactly what the steps queued, in their order. |
| LoopSteps.NeverStranded | 3rdparty/muduo/net/EventLoop.cc:103-134 | If the thread of the loop queues only from inside loop(), then whenever it is about to poll with functors pending, or after quit, the eventfd is readable or a thread is about to write it. |
| LoopSteps.StrandedBeforeLoopExactly | 3rdparty/muduo/net/EventLoop.cc:160-171 | A functor queued by the thread of the loop before loop(), in whatever run before the start, waits out the first poll if and only if nothing had roused the loop and no other thread does before that poll. |
| LoopSteps.RousedByOthers | 3rdparty/muduo/net/EventLoop.cc:160-171 | Before loop(), over every run, the eventfd gains exactly the wake-ups of other threads, whatever the thread of the loop queues. |
| LoopSteps.CounterExactly | 3rdparty/muduo/net/EventLoop.cc:234-252 | Over every interleaving the eventfd holds exactly the writes since it was last read: those of other threads, and of the loop for what its functors queue. |
| LoopSteps.PollSeesExactly | 3rdparty/muduo/net/EventLoop.cc:112-130 | A poll finds the eventfd readable if and only if it was written since it was last read. |
| LoopSteps.PollMayBlock | 3rdparty/muduo/net/EventLoop.cc:244-252 | After it was read, and with no write and nothing queued since, the next poll finds it unreadable: the loop does not spin. |
| LoopSteps.QuitExactly | 3rdparty/muduo/net/EventLoop.cc:136-146 | quit is set if and only if somebody quit since the last start, whatever the interleaving. |
| LoopSteps.LeavesExactly | 3rdparty/muduo/net/EventLoop.cc:103-134 | A test leaves the loop if and only if somebody quit since its start. |
| LoopSteps.ActsExactly | 3rdparty/muduo/net/EventLoop.cc:148-158 | A functor queued, or a quit, at any depth of functors run at once is a step of the callback, and nothing else is. |
| LoopSteps.QuitIsKept | 3rdparty/muduo/net/EventLoop.cc:136-146 | Once set inside loop(), quit survives every step and the next test leaves the loop. |
| LoopSteps.QuitBeforeLoopIsForgotten | 3rdparty/muduo/net/EventLoop.cc:103-108 | Whoever quits before loop(), in whatever run, the loop then polls if and only if no quit comes between its start and its first test. |
| LoopSteps.IterationRunsAll | 3rdparty/muduo/net/EventLoop.cc:112-130 | All that waits at a poll has run when that iteration ends, whatever comes in between. |
| LoopSteps.BatchIsWhatWasSwapped | 3rdparty/muduo/net/EventLoop.cc:254-269 | A batch is exactly what waited at the swap: functors queued while it runs wait for the next one. |
| EventLoop.EventLoop.Push | 3rdparty/muduo/net/EventLoop.cc:160-165 | The locked half of queueInLoop in another thread, as one step. |
| EventLoop.EventLoop.Stop | 3rdparty/muduo/net/EventLoop.cc:136-146 | quit in another thread up to its write, as one step. |
| EventLoop.EventLoop.Wakeup | 3rdparty/muduo/net/EventLoop.cc:234-242 | The write to the eventfd, as one step. |
| EventLoop.EventLoop.QueueInLoop | 3rdparty/muduo/net/EventLoop.cc:160-171 | In the thread of the loop: queued, and announced exactly while functors are called. |
| EventLoop.EventLoop.Call | 3rdparty/muduo/net/EventLoop.cc:148-158 | The steps it takes itself are exactly those of its actions in program order, functors passed to runInLoop at once and nested to any depth; beside any other threads it loses nothing pending and runs no queued functor. |
| EventLoop.EventLoop.HandleRead | 3rdparty/muduo/net/EventLoop.cc:244-252 | Reading the eventfd empties it, as one step. |
| EventLoop.EventLoop.EventfdCounts | 3rdparty/muduo/net/EventLoop.cc:234-252 | The eventfd of a loop object holds exactly the writes of its history since it was last read. |
| EventLoop.EventLoop.DoPendingFunctors | 3rdparty/muduo/net/EventLoop.cc:254-269 | Runs a batch that starts with all that was pending at the call, completely and in order: its own steps are the swap, then each functor with its actions. |
| EventLoop.EventLoop.Iterate | 3rdparty/muduo/net/EventLoop.cc:112-130 | What was pending at the poll has run at the end; in a disciplined run nothing was stranded; its own steps are the poll, the callbacks in order with the eventfd read if it was readable, and the batch. |
| EventLoop.EventLoop.Loop | 3rdparty/muduo/net/EventLoop.cc:103-134 | Ends only on quit; every functor pending at the start has run after the first iteration. |
| TimerPlan.CancelledNeverRuns | 3rdparty/muduo/net/TimerQueue.cc:143-161 | A timer cancelled after its arrival in the loop never runs in a later batch, over every run. |
| TimerPlan.CancelHoldsExactly | 3rdparty/muduo/net/TimerQueue.cc:143-161 | After a cancel a timer never runs in a later batch, whatever follows, if and only if it was not still waiting to arrive; the cancel of a waiting timer is forgotten, also when a callback makes it. |
| TimerPlan.OneShotRunsOnce | 3rdparty/muduo/net/TimerQueue.cc:204-233 | A timer without interval runs at most once, over every run. |
| TimerPlan.RepeatsAfterBatch | 3rdparty/muduo/net/TimerQueue.cc:204-233 | A repeating timer not cancelled during its batch is queued again for the time of the batch plus its interval in seconds, less a fraction of a microsecond. |
| TimerPlan.RestartTime | 3rdparty/muduo/net/Timer.cc:16-26 | The restart time in reals: at most now plus interval seconds, and within a microsecond of it. |
| TimerPlan.BatchRestarts | 3rdparty/muduo/net/TimerQueue.cc:204-233 | Of the timers of a batch exactly those that repeat and that no callback cancelled are queued again, each at that time. |
| TimerPlan.BatchIsRun | 3rdparty/muduo/net/TimerQueue.cc:163-181 | What the callbacks of a batch do, between its beginning and its end, is itself a legal run, so the statements on runs hold of it. |
| TimerQueue.Queue.constructor | 3rdparty/muduo/net/TimerQueue.cc:91-102 | A new queue has no timers and strands none. |
| TimerQueue.Queue.ResetTimerfd | 3rdparty/muduo/net/TimerQueue.cc:41-84 | Arms the kernel timer for the later of the expiration and 100 microseconds from now. |
| TimerQueue.Queue.NewTimer | 3rdparty/muduo/net/TimerQueue.cc:116-124 | A timer comes to exist with a new number and is known by address and number. |
| TimerQueue.Queue.Insert | 3rdparty/muduo/net/TimerQueue.cc:235-259 | Both sets gain exactly the entry, in order; both insertions are of something new. |
| TimerQueue.Queue.AddTimerInLoop | 3rdparty/muduo/net/TimerQueue.cc:132-141 | The two sets stay in bijection with the queued timers under their current expirations; arming only when the first changes strands none, and then the deadline is the later of the new expiration and 100 microseconds from now. |
| TimerQueue.Queue.CancelInLoop | 3rdparty/muduo/net/TimerQueue.cc:143-161 | Whatever genuine id is given, of a queued, running, waiting or deleted timer: nothing deleted is touched, the sets stay in bijection, and no timer is stranded though nothing is armed. |
| TimerQueue.Queue.GetExpired | 3rdparty/muduo/net/TimerQueue.cc:183-202 | Takes exactly the timers due, in order of expiration, out of both sets. |
| TimerQueue.Queue.RunCallback | 3rdparty/muduo/net/TimerQueue.cc:171-176 | Callbacks may add timers and cancel any, themselves included, without harm to the batch. |
| TimerQueue.Queue.Settle | 3rdparty/muduo/net/TimerQueue.cc:208-222 | A timer of the batch is queued again, its interval in seconds after the batch, if it repeats and was not cancelled, and deleted otherwise. |
| TimerQueue.Queue.Reset | 3rdparty/muduo/net/TimerQueue.cc:204-233 | After a batch every timer of it is queued again or gone, and none is stranded. |
| TimerQueue.Queue.HandleRead | 3rdparty/muduo/net/TimerQueue.cc:163-181 | The whole call is a batch of the plan: exactly the timers queued for now or before run, once each in order; exactly those that repeat and that no callback cancelled are queued again, their interval later; the kernel timer is set for the first expiration but no earlier than 100 microseconds from now; for a positive clock no timer is stranded afterwards, whatever the callbacks did. |
| TimerQueue.Queue.HandleQuietRead | 3rdparty/muduo/net/TimerQueue.cc:163-233 | When callbacks leave the queue alone, no timer is stranded if and only if none will be left with an expiration of zero or less: neither one not yet due nor a repeating one restarted to such a time. That can only be with a clock of zero or less. |
| TimerPlan.StrandsExactly | 3rdparty/muduo/net/TimerQueue.cc:204-233 | That condition on the timers before the call holds if and only if such a timer is queued after it. |
| TimerHistory.History.HandleRead | 3rdparty/muduo/net/TimerQueue.cc:163-181 | What a queue has run, counted by timer, is what its history of calls says, and while the last clock was positive none of its timers is stranded. |
| TimerHistory.History.NoneStranded | 3rdparty/muduo/net/TimerQueue.cc:132-233 | Over every sequence of creations, arrivals, cancels, expiries and batches with positive clocks, no timer is stranded. |
| TimerHistory.History.RanOnce | 3rdparty/muduo/net/TimerQueue.cc:204-233 | Over every sequence of calls a timer created without interval has run at most once. |
| TimerHistory.History.RanApart | 3rdparty/muduo/net/TimerQueue.cc:204-233 | Over every sequence of calls, two batches that ran the same timer were at least its interval apart, less a microsecond. |
| TimerHistory.RunsApart | 3rdparty/muduo/net/TimerQueue.cc:204-233 | The same of every run of events from every state. |
| TimerHistory.History.NotSinceCancelled | 3rdparty/muduo/net/TimerQueue.cc:143-161 | Over every sequence of calls a timer cancelled after its arrival has not run since. |
| RtpFormat.FragmentedFrame | src/media/h264_source.cc:92-138 | Section 5.8 of RFC 3984 for every frame over 1420 bytes: at least two fragments, start and end bit on exactly the first and last and never both, none empty, payloads together the frame without its first byte, every packet within 1436 bytes, `last` on the last only. |
| RtpFormat.FuOctets | src/media/h264_source.cc:92-138 | In figures: frames up to 1420 bytes go whole; a fragment begins with type 28 under the other bits of the frame, then 128 for the first, 64 for the last, and the type of the frame. |
| RtpFormat.HeaderOctets | src/media/rtp.h:44-57 | In figures: the twelve octets of a header, numbers in network order. |
| RtpFormat.FrameOctets | src/media/rtp_connection.cc:218-232 | In figures: 36, the channel modulo 256, and the length in two bytes. |
| RtpFormat.ParseLayout | src/media/rtp.h:44-57 | A header written as the structure lies in memory parses, by section 5.1 of RFC 3550, to the same fields. |
| RtpFormat.DeframeFrame | src/media/rtp_connection.cc:218-232 | A framed packet followed by anything deframes, by section 10.12 of RFC 2326, to the packet and the rest, the channel being taken modulo 256. |
| RtpFormat.AcceptFrame | src/media/h264_source.cc:72-141 | A receiver that checks sequence numbers puts a packetized frame together again, from every starting number. |
| RtpFormat.OnlyDeliverable | src/media/h264_source.cc:80-91 | A frame survives packetization if and only if it is over the limit or else non-empty with a type other than 28. |
| RtpStream.SentConsecutively | src/media/rtp_connection.cc:179-216 | Over every run of set-up, play, record, teardown and queued sends, the packets sent on a channel carry consecutive numbers modulo 65536. |
| RtpStream.StepNumbering | src/media/rtp_connection.cc:179-186 | Each step takes the next number of its channel if it sends there, and none otherwise. |
| RtpStream.ParseWire | src/media/rtp_connection.cc:218-232 | The bytes on the wire parse back to exactly the packets sent, in order. |
| RtpStream.StreamFrames | src/media/h264_source.cc:72-141 | Frames pushed on an active channel are received one by one, each complete and in order. |
| RtpStream.EndToEnd | src/media/rtp_connection.cc:179-232 | For every sequence of deliverable frames of any length, on an active channel and from any sequence number: deframing, parsing and reassembling the bytes gives exactly the frames from the first key frame on, and every packet has the time stamp of its frame, the payload type and source of the channel, and the marker on the last of a frame only. |
| RtpStream.EndToEndInterleaved | src/media/rtp_connection.cc:179-232 | The same once a key frame was seen with packets of the other channel anywhere between, even inside a frame, as long as the other is not active or has a different number modulo 256. |
| RtpStream.OthersDoNotMatter | src/media/rtp_connection.cc:179-232 | On its channel a connection sends what it would send without the packets of the other. |
| RtpHistory.ActiveExactly | src/media/rtp_connection.cc:121-145 | Over every sequence of calls on a new connection: a channel is active if and only if a play or record found it set up and no first teardown followed. |
| RtpHistory.SetUpExactly | src/media/rtp_connection.cc:46-59 | It is set up if and only if that was asked while the TCP connection lasted. |
| RtpHistory.NumberExactly | src/media/rtp_connection.cc:46-59 | It goes by the number of its last set-up. |
| RtpHistory.ClosedExactly | src/media/rtp_connection.cc:137-177 | Closed means torn down, and the key-frame flag that a packet of a key frame, or of unknown kind, was delivered. |
| RtpHistory.PayloadTypeIs | src/media/rtp_connection.h:34-36 | It has the payload type it was last given, in seven bits. |
| RtpHistory.SentExactly | src/media/rtp_connection.cc:188-215 | Over every sequence of calls, a packet that comes to be delivered is sent, unchanged and under the number of the last set-up, if and only if the TCP connection lasts, the channel was started, and a key frame has come. |
| RtpHistory.NeverSetUp | src/media/rtp_connection.cc:121-135 | A channel that was never set up puts nothing on the wire. |
| RtpHistory.SilentAfterTeardown | src/media/rtp_connection.cc:137-145 | After the first teardown no queued packet is sent until a play or record follows. |
| RtpHistory.SecondTeardown | src/media/rtp_connection.cc:137-145 | A run where a second teardown leaves a channel sending. |
| RtpSender.RtpConnection.constructor | src/media/rtp_connection.cc:23-36 | A new connection has no channel set up or active. |
| RtpSender.RtpConnection.SetupRtpOverTcp | src/media/rtp_connection.cc:46-59 | One step of the stream: both channel numbers and the transport are recorded; refused without the TCP connection. |
| RtpSender.RtpConnection.Play | src/media/rtp_connection.cc:121-126 | Exactly the channels set up start to play. |
| RtpSender.RtpConnection.Record | src/media/rtp_connection.cc:128-135 | Exactly the channels set up start to record and play. |
| RtpSender.RtpConnection.Teardown | src/media/rtp_connection.cc:137-145 | Every channel stops, and the connection stays closed. |
| RtpSender.RtpConnection.SetFrameType | src/media/rtp_connection.cc:172-177 | The key-frame flag is set by a key frame and never reset. |
| RtpSender.RtpConnection.SetRtpHeader | src/media/rtp_connection.cc:179-186 | On an active channel the packet gets the next header in front of its unchanged payload and the number advances with wrap-around; otherwise nothing changes. |
| RtpSender.RtpConnection.SendRtpPacket | src/media/rtp_connection.cc:188-215 | Queues the packet for the loop of the connection, or in that loop sends it at once; refused when closed or disconnected. |
| RtpSender.RtpConnection.SendRtpOverTcp | src/media/rtp_connection.cc:218-232 | Hands exactly one framed packet to the TCP connection. |
| RtpSender.RtpConnection.RunJob | src/media/rtp_connection.cc:188-215 | A queued functor is one step of the stream: its packet is checked, stamped and sent, or dropped, whatever happened since it was queued. |
| RtpSender.MediaSession.Collect | src/media/media_session.cc:39-66 | Expired clients go; every name of a live one gets one fresh copy with the bytes of the packet. |
| RtpSender.MediaSession.Distribute | src/media/media_session.cc:68-76 | Every listed client is queued the copy of its name, and no other. |
| RtpSender.MediaSession.SendFrame | src/media/media_session.cc:39-78 | Every client that is there, open and connected is queued its own fresh copy, no other queue changes, and no two queued packets share a buffer. |
| RtpSender.MediaSession.RunJobOf | src/media/media_session.cc:39-78 | When one client stamps and frames its packet, no other client changes and no byte of any queued packet does. |
| RtpSender.H264Source.HandleFrame | src/media/h264_source.cc:72-141 | Every client that stays is queued exactly the packets of the frame, in order, as the specification of packetizing says. |
| RtpSender.H264Source.HandleLongFrame | src/media/h264_source.cc:92-138 | The fragmenting loop, which edits its header bits in place, sends exactly the specified fragments. |
| RtpSender.H264Source.HandleShortFrame | src/media/h264_source.cc:79-91 | A frame within the limit goes out in one packet. |
| RtpSender.FragmentsByPosition | src/media/h264_source.cc:99-121 | Fragment i of a frame carries its bytes from 1 + 1418 i on. |
| RtpEndToEnd.PushFrames | src/media/media_session.cc:36-78 | Frames pushed on both channels leave in the queue of a client that stays exactly their packets, in order, each in a buffer of its own. |
| RtpEndToEnd.RunPushed | src/media/rtp_connection.cc:188-232 | When the loop of the connection has run that queue, a receiver of either channel reads from the bytes handed to the TCP connection exactly the frames of that channel, from the first key frame on either channel on; every packet carries the time stamp of its frame, or that of the clock when the frame had none. |
| RtpEndToEnd.PushedReceived | src/media/rtp_connection.cc:188-232 | The same of the stream machine, from every state with an active channel, key frame seen or not. |
| RtpEndToEnd.HeldUntilKey | src/media/rtp_connection.cc:172-186 | Frames pushed before the first key frame, on whichever channel, put nothing on the wire, and all later ones go as if it had been seen before. |
| RtpEndToEnd.ReceivedAfterRun | src/media/rtp_connection.cc:46-215 | After any calls on a new connection that lasts: frames pushed on a started channel are received under the number of its last set-up modulo 256, from the first key frame on. |
| RtpEndToEnd.ReceivedAfterPlay | src/media/rtp_connection.cc:46-126 | After one set-up under a number and one play, frames pushed on that channel are received under that number modulo 256 from the first key frame on. |
| RtpEndToEnd.SetUpAndPlay | src/media/rtp_connection.cc:46-126 | A new connection object is ready to send after set-up and play. |
| RtpEndToEnd.RunQueue | src/media/rtp_connection.cc:188-215 | Running a queue of functors takes one step of the stream for each packet, in order. |
| AsyncLogging.AsyncLogging.Append | 3rdparty/muduo/base/AsyncLogging.cc:34-56 | The line follows all earlier ones, or is dropped when no buffer can hold it; a missing spare buffer means a full one waits. |
| AsyncLogging.AsyncLogging.TakeBatch | 3rdparty/muduo/base/AsyncLogging.cc:76-88 | The batch is all full buffers and the current one; there are at least two when the second spare buffer was spent. |
| AsyncLogging.AsyncLogging.Write | 3rdparty/muduo/base/AsyncLogging.cc:92-115 | The file gets the batch in order, or a notice and its first two buffers when there are more than 25. |
| AsyncLogging.AsyncLogging.GiveBack | 3rdparty/muduo/base/AsyncLogging.cc:117-131 | Every spent spare buffer is recovered, empty: the assertions on the written buffers hold. |
| AsyncLogging.AsyncLogging.Turn | 3rdparty/muduo/base/AsyncLogging.cc:70-134 | Whatever lines are appended meanwhile, a turn ends with both spare buffers back and empty, as the assertions at its head require. |
| AsyncLogging.AsyncLogging.ThreadFunc | 3rdparty/muduo/base/AsyncLogging.cc:58-135 | Over every interleaving: the file is the batches taken, rendered in order; what each batch left in the file, followed by its buffers after the second when there were more than 25, then full buffers and current buffer, are together all lines shorter than 4000000 bytes, in order; with no batch over 25 the file alone has the first part. |
| AsyncLogging.RenderedExactly | 3rdparty/muduo/base/AsyncLogging.cc:92-107 | In figures: up to 25 buffers are written one by one; of more, a notice with the number of the others, and two. |
| AsyncLogging.RenderedLoses | 3rdparty/muduo/base/AsyncLogging.cc:92-107 | A batch is what the file gets of it followed by exactly the buffers after the second when there are more than 25. |
| AsyncLogging.RestoredIsCarried | 3rdparty/muduo/base/AsyncLogging.cc:92-107 | What the file got of all batches with what was dropped put back in its place is what was carried off. |
| AsyncLogging.NothingLost | 3rdparty/muduo/base/AsyncLogging.cc:92-107 | While no batch is over 25 the file holds every byte carried off, in order. |
| Pollers.PollPoller.UpdateChannel | 3rdparty/muduo/net/poller/PollPoller.cc:75-110 | The array becomes the old one with the slot added or rewritten; every channel object knows its slot and interest; the assertions hold. |
| Pollers.PollPoller.RemoveChannel | 3rdparty/muduo/net/poller/PollPoller.cc:112-140 | The array becomes the old one with the last slot in the place of the removed one, and the moved channel object knows it; the assertions hold. The removed object keeps its index and is not accepted again. |
| Pollers.PollPoller.FillActiveChannels | 3rdparty/muduo/net/poller/PollPoller.cc:55-73 | With the count the kernel returned, and no report of an ignored slot, the early exit misses no channel: exactly the slots with events, in order, each channel found by the descriptor in its slot and told its own; the assertions hold. |
| Pollers.PollPoller.InterestIsWanted | 3rdparty/muduo/net/poller/PollPoller.cc:75-140 | The interest decoded from the array is what the registered channels want. |
| PollTable.DecodedExactly | 3rdparty/muduo/net/poller/PollPoller.cc:75-140 | A descriptor is in the decoded interest if and only if a slot watches it, and no two slots belong to one descriptor. |
| PollTable.DecodedIsWanted | 3rdparty/muduo/net/poller/PollPoller.cc:75-140 | Bijection makes the decoded array equal to the interests of the channels. |
| PollTable.DropKeeps | 3rdparty/muduo/net/poller/PollPoller.cc:112-140 | Swap-remove of any slot, the last included, keeps the bijection and which of the other slots are ignored. |
| Pollers.ReadyExactly | 3rdparty/muduo/net/poller/PollPoller.cc:55-73 | A descriptor is ready if and only if its slot has events. |
| PollTable.RegistryExactly | 3rdparty/muduo/net/Poller.h:43-49 | A descriptor is registered with an interest if and only if the last call on it was an update to that. |
| PollTable.RemovalFailsExactly | 3rdparty/muduo/net/poller/PollPoller.cc:112-124 | Over every sequence of calls: the slot of a channel without interest breaks the assertion before its removal if and only if the channel was registered without interest and never updated since. |
| PollTable.FailingRemoval | 3rdparty/muduo/net/poller/PollPoller.cc:75-92 | The shortest run that breaks it: one update that registers without interest. |
| PollTable.PutKeeps | 3rdparty/muduo/net/poller/PollPoller.cc:75-110 | Adding or rewriting a slot keeps the bijection; the slot is ignored if and only if an existing channel now wants nothing. |
| PollTable.TableAfter | 3rdparty/muduo/net/poller/PollPoller.cc:75-140 | After every sequence of calls the array is in bijection with the registered channels, holds their last interest, and ignores exactly those that may be removed. |
| Pollers.EPollPoller.UpdateChannel | 3rdparty/muduo/net/poller/EPollPoller.cc:107-149 | The kernel table keeps exactly the added channels with their interest; nothing is added twice, and nothing absent is modified or deleted. |
| Pollers.EPollPoller.RemoveChannel | 3rdparty/muduo/net/poller/EPollPoller.cc:151-170 | The channel leaves map and table, deleted from the table only if it was there; the same object is accepted again. |
| Pollers.EPollPoller.FillActiveChannels | 3rdparty/muduo/net/poller/EPollPoller.cc:89-105 | Every event of the kernel reaches the registered channel; the assertions hold. |
| Pollers.EPollPoller.InterestIsWanted | 3rdparty/muduo/net/poller/EPollPoller.cc:107-170 | The interest in the kernel table is what the registered channels want. |
| Pollers.Drive | 3rdparty/muduo/net/Poller.h:43-49 | Driven by the same calls, both pollers ask the kernel for the same: for a descriptor exactly what the last call on it wanted, if that was an update to something; a channel may be registered without interest. A removed descriptor comes back with a new channel object. |
| Pollers.DrivePoll | 3rdparty/muduo/net/poller/PollPoller.cc:75-140 | The objects driven by a sequence of calls end with the array that the sequence determines. |
| H264File.ScansStayInsideExactly | src/h264_file.cc:47-66 | bytesRead - 5 never wraps in a reachable state if and only if the file and the buffer are empty or hold at least five bytes. |
| H264File.H264File.FindStart | src/h264_file.cc:68-93 | Finds the first slice that opens a picture, or none is in sight; every access is inside what was read. |
| H264File.H264File.FindEnd | src/h264_file.cc:95-116 | Finds the first position after it where another unit begins, or none is in sight. |
| H264File.H264File.FindChunk | src/h264_file.cc:62-129 | There is a chunk if and only if a slice opens a picture and, for the first of a pass, another unit follows; it reaches to that unit, or is all that was read. |
| H264File.H264File.ReadFrame | src/h264_file.cc:47-139 | Says exactly when a chunk, the last chunk or an error is returned and which bytes; chunks of a pass concatenate to the file up to the counter; the last chunk completes the file if and only if what was left fits in the buffer; then the reader is rewound. |
| H264File.H264File.ReadPass | src/h264_file.cc:47-139 | A whole pass terminates; its chunks, also of a pass that ends in an error, concatenate to a prefix of the file; every chunk but a last is cut by its read; every chunk after the first begins with a start code; the chunks are the file if and only if the last one found room. |
| H264Units.ReadBack | src/h264_file.cc:47-139 | Reading undoes writing: a pass over pictures as written, of start codes of either length, parameter sets and slices of types 1 and 5, gives exactly these pictures if and only if there are at least two, the buffer has room for each with six bytes of the next, and none ends in a zero before a short start code. |
| H264Units.CutsExactly | src/h264_file.cc:62-116 | A read that sees a picture and six bytes of the next cuts it off exactly, unless its last zero joins the next start code. |
| H264Units.LastEnds | src/h264_file.cc:118-129 | The last picture of a file has no end in sight. |
| H264Units.CodesAreOfNals | src/h264_file.cc:68-78 | Every start code that the scans see is one that was written, or its inner half, or joined by one zero before it. |
| H264Units.ZeroJoins | src/h264_file.cc:95-116 | Two pictures, the first ending in a zero, which the read cuts one byte early. |
| H264Units.ShortSliceUnseen | src/h264_file.cc:68-93 | A slice of one byte behind its header at the end of the file is not found. |
| H264File.WholeFile | src/h264_file.cc:118-139 | The pieces of a pass and what one more read finds are the file if and only if the rest fits in the buffer. |
| H264File.OneUnitOnly | src/h264_file.cc:118-129 | A file of one access unit, for which a read at its start says that nothing follows and so, being the first, gives up. |

## Left out

- UDP transport, RTSP text, command handlers, RTCP and session tables: socket calls and string handling around the parts modelled.
- RtpSender.MediaSession.SendFrame: the map of names to copies is modelled by connection number, and clients with equal names are covered by the statement on copies but not by that on separate buffers.
- Time stamps and sequence counters of timers are unbounded integers, and intervals are reals: overflow and rounding of doubles are not modelled.
- The wall clock that timers compare with and the monotonic clock of the kernel timer are one clock, given as a parameter.
- Buffer.Buffer.Grow: the growth policy of the vector behind the buffer is not modelled, only its size.
- `EPollPoller` event-list growth, errors of epoll_ctl other than through its contract, and negative or high-bit event masks.
- TcpConnection.TcpConnection.SendInLoop: the state does not change in the middle of a call; other threads act between calls.
- TcpServer.TcpServer.Shutdown: the test of the state and its change, for which the source asks for a compare and swap, are one step, here and in forceClose; only for send are test and queueing apart.
- `handleRead` of a connection is modelled by `Buffer.Buffer.ReadFd` and by its end-of-file branch only; `startRead` and `stopRead` are not used by the server.
- TcpServer.TcpServer.NewConnection: a connection is known by its number rather than by the name built from it, and the number does not wrap; the round-robin choice of the loop is a parameter.
- Calendar.ToUtcTime: computes with unbounded integers; the cast and the 32-bit arithmetic agree with them exactly for the times that Calendar.UtcFitsExactly gives.
- RtpSender.RtpConnection.RunJob: a queued functor captures the bare connection; that its owner, the RTSP connection, keeps it until its functors have run is assumed.
- The destructors of server, loop and timer queue, and starting and stopping threads.
- EventLoop.EventLoop.Loop: the number of polls is given in advance, and what other threads and callbacks do is a script, so that every finite run is covered; the eventfd counter does not overflow.
- AsyncLogging.AsyncLogging.ThreadFunc: buffers are values moved between owners, so reuse of their memory is not visible; the text of the notice, rolling and flushing of the file are not modelled; stop promises no last drain, and what is left over is named in the contract.
- RtpSender.MediaSession.RunJobOf: needs clients with different names, which the server gives its connections.
- H264Units.ReadBack: the pictures begin with SEI, SPS, PPS or a slice; the reader cuts before no other type, so a delimiter would go to the picture before.
- H264File.H264File.ReadFrame: the file does not change during a pass, and counters do not overflow.
- Bit masks on bytes are written with division and remainder.
- Time zone files and local time, log formatting, and the unused client classes.
