/** The two pollers: one keeps an array for poll(2), the other the table of an epoll instance. */
module Pollers {
  import opened PollTable

  class Channel {
    const fd: nat
    var events: nat
    var revents: nat
    var index: int

    constructor (fd: nat)
      ensures this.fd == fd && events == 0 && index == -1
    {
      this.fd, events, revents, index := fd, 0, 0, -1;
    }
  }

  // ---- poll(2) ----

  /** The descriptors among the first n slots with something to report, in slot order. */
  function Ready(slots: seq<PollFd>, revents: seq<nat>, n: nat): (fds: seq<int>)
    requires n <= |revents| <= |slots|
    ensures |fds| <= n
  {
    if n == 0 then []
    else Ready(slots, revents, n - 1) + if revents[n - 1] > 0 then [slots[n - 1].fd] else []
  }

  lemma {:induction false} ReadyGrows(slots: seq<PollFd>, revents: seq<nat>, n: nat, m: nat)
    requires n <= m <= |revents| <= |slots|
    ensures Ready(slots, revents, n) <= Ready(slots, revents, m)
    decreases m
  {
    if n < m {
      ReadyGrows(slots, revents, n, m - 1);
    }
  }

  /** Exactly the slots with events are ready. */
  lemma {:induction false} ReadyExactly(slots: seq<PollFd>, revents: seq<nat>, n: nat, fd: int)
    requires n <= |revents| <= |slots|
    ensures fd in Ready(slots, revents, n) <==> exists i :: 0 <= i < n && revents[i] > 0 && slots[i].fd == fd
  {
    if n > 0 {
      ReadyExactly(slots, revents, n - 1, fd);
    }
  }

  /** What the kernel may report: nothing of a slot that it ignores. */
  ghost predicate Reportable(slots: seq<PollFd>, revents: seq<nat>) {
    |revents| == |slots| && forall i :: 0 <= i < |slots| && revents[i] > 0 ==> slots[i].fd >= 0
  }

  class PollPoller {
    var pollfds: seq<PollFd>
    var channels: map<nat, Channel>
    // the index and the interest of every registered channel
    ghost var at: map<nat, int>
    ghost var masks: map<nat, nat>

    ghost function Owned(): set<Channel>
      reads this`channels
    {
      channels.Values
    }

    ghost predicate Matches(fd: nat)
      reads this`channels, this`at, this`masks, Owned()`index, Owned()`events
    {
      && fd in channels && channels[fd].fd == fd
      && fd in at && channels[fd].index == at[fd]
      && fd in masks && channels[fd].events == masks[fd]
    }

    ghost function Array(): Table
      reads this`pollfds, this`at, this`masks
    {
      Table(pollfds, at, masks)
    }

    ghost predicate Valid()
      reads this, Owned()`index, Owned()`events
    {
      && at.Keys == channels.Keys && Array().Linked()
      && (forall fd :: fd in channels ==> Matches(fd))
    }

    ghost function Interest(): Interest
      reads this, Owned()`index, Owned()`events
      requires Valid()
    {
      Array().Decoded()
    }

    lemma InterestIsWanted()
      requires Valid()
      ensures Interest() == Wanted(masks)
    {
      DecodedIsWanted(Array());
    }

    constructor ()
      ensures Valid() && channels == map[] && Array() == NoSlots && Interest() == map[]
    {
      pollfds, channels, at, masks := [], map[], map[], map[];
    }

    /** What the assertions of an update demand. */
    predicate Accepts(c: Channel)
      reads this`channels, c`index
    {
      if c.index < 0 then c.fd !in channels else c.fd in channels && channels[c.fd] == c
    }

    /** The interest of a channel has become `events`. */
    method UpdateChannel(c: Channel, events: nat)
      requires Valid() && Accepts(c)
      modifies this, c`events, c`index
      ensures Valid() && channels == old(channels)[c.fd := c]
      ensures Array() == Put(old(Array()), c.fd, events)
    {
      ghost var before := Array();
      if c.index < 0 {
        AddSlot(c, events);
      } else {
        RewriteSlot(c, events);
      }
      PutKeeps(before, c.fd, events);
    }

    method AddSlot(c: Channel, events: nat)
      requires Valid() && c.index < 0 && c.fd !in channels
      modifies this, c`events, c`index
      ensures Array() == Put(old(Array()), c.fd, events) && channels == old(channels)[c.fd := c]
      ensures forall fd :: fd in channels ==> Matches(fd)
    {
      assert forall fd :: fd in channels ==> Matches(fd) && channels[fd] != c;
      c.events := events;
      pollfds := pollfds + [PollFd(c.fd, events)];
      c.index := |pollfds| - 1;
      channels := channels[c.fd := c];
      at, masks := at[c.fd := c.index], masks[c.fd := events];
    }

    method RewriteSlot(c: Channel, events: nat)
      requires Valid() && c.index >= 0 && c.fd in channels && channels[c.fd] == c
      modifies this`pollfds, this`masks, c`events
      ensures Array() == Put(old(Array()), c.fd, events)
      ensures forall fd :: fd in channels ==> Matches(fd)
    {
      assert forall fd :: fd in channels ==> Matches(fd);
      assert c.index < |pollfds| && (pollfds[c.index].fd == c.fd || pollfds[c.index].fd == -1 - c.fd) by {
        assert Matches(c.fd) && Array().Placed(pollfds[c.index], c.index);
      }
      c.events := events;
      pollfds := pollfds[c.index := PollFd(if events == 0 then -1 - c.fd else c.fd, events)];
      masks := masks[c.fd := events];
    }

    /** The last slot takes the place of the removed one. The channel keeps its index, so the same object cannot
        be added again. */
    method RemoveChannel(c: Channel)
      requires Valid() && c.fd in channels && channels[c.fd] == c
      requires c.events == 0 && Array().Ignored(c.fd)
      modifies this, Owned()`index
      ensures Valid() && channels == old(channels) - {c.fd}
      ensures Array() == Drop(old(Array()), c.fd)
      ensures c.index == old(c.index) >= 0 && !Accepts(c)
    {
      ghost var before := Array();
      assert Matches(c.fd);
      var idx := c.index;
      assert pollfds[idx] == PollFd(-1 - c.fd, c.events) by {
        assert before.Placed(pollfds[idx], idx);
      }
      Compact(idx);
      Erase(c.fd);
      assert Array() == Drop(before, c.fd);
      DropKeeps(before, c.fd);
    }

    method Erase(fd: nat)
      requires forall d :: d in channels ==> Matches(d)
      modifies this`channels, this`at, this`masks
      ensures channels == old(channels) - {fd} && at == old(at) - {fd} && masks == old(masks) - {fd}
      ensures forall d :: d in channels ==> Matches(d)
    {
      channels, at, masks := channels - {fd}, at - {fd}, masks - {fd};
      forall d | d in channels ensures Matches(d) {
        assert old(Matches(d));
      }
    }

    /** The last slot is dropped, or moved and its channel given the new index. */
    method Compact(idx: nat)
      requires Valid() && idx < |pollfds|
      modifies this`pollfds, this`at, Owned()`index
      ensures var last := old(pollfds)[|old(pollfds)| - 1];
              && pollfds == old(pollfds)[idx := last][..|old(pollfds)| - 1]
              && at == old(at)[last.Owner() := idx]
      ensures forall fd :: fd in channels ==> Matches(fd)
      ensures forall fd :: fd in channels && old(at)[fd] == idx ==> channels[fd].index == idx
    {
      assert Array().Placed(pollfds[|pollfds| - 1], |pollfds| - 1);
      assert forall fd :: fd in channels ==> Matches(fd);
      if idx == |pollfds| - 1 {
        pollfds := pollfds[..|pollfds| - 1];
      } else {
        var channelAtEnd := pollfds[|pollfds| - 1].fd;
        pollfds := pollfds[idx := pollfds[|pollfds| - 1]][|pollfds| - 1 := pollfds[idx]];
        if channelAtEnd < 0 {
          channelAtEnd := -channelAtEnd - 1;
        }
        channels[channelAtEnd].index := idx;
        at := at[channelAtEnd := idx];
        pollfds := pollfds[..|pollfds| - 1];
      }
    }

    /** A channel was handed what the kernel reported of the slot of a descriptor. */
    predicate Reported(c: Channel, fd: int, revents: seq<nat>)
      reads this`channels, c`revents, c`index
    {
      && fd >= 0 && fd in channels && channels[fd] == c
      && 0 <= c.index < |revents| && c.revents == revents[c.index]
    }

    /** Channels and descriptors correspond, as far as there are channels. */
    ghost predicate AllReported(active: seq<Channel>, fds: seq<int>, revents: seq<nat>)
      reads this`channels, Owned()`revents, Owned()`index
    {
      && |active| <= |fds|
      && forall k :: 0 <= k < |active| ==> active[k] in Owned() && Reported(active[k], fds[k], revents)
    }

    /** The channel of a slot is told, and comes next among the active ones. */
    method Report(i: nat, revents: seq<nat>, active: seq<Channel>, ghost fds: seq<int>) returns (more: seq<Channel>)
      requires Valid() && i < |pollfds| == |revents| && pollfds[i].fd >= 0
      requires |active| < |fds| && fds[|active|] == pollfds[i].fd
      requires AllReported(active, fds, revents)
      modifies Owned()`revents
      ensures Valid() && |more| == |active| + 1 && AllReported(more, fds, revents)
    {
      assert Array().Placed(pollfds[i], i) && Matches(pollfds[i].fd);
      assert pollfds[i].fd in channels;
      var channel := channels[pollfds[i].fd];
      assert channel.fd == pollfds[i].fd;
      channel.revents := revents[i];
      more := active + [channel];
    }

    /** One slot of the scan. */
    method ScanSlot(i: nat, revents: seq<nat>, left: nat, active: seq<Channel>, ghost fds: seq<int>)
        returns (remaining: nat, more: seq<Channel>)
      requires Valid() && i < |pollfds| == |revents| && (revents[i] > 0 ==> pollfds[i].fd >= 0) && left > 0
      requires |active| + left == |fds| && Ready(pollfds, revents, i + 1) <= fds
      requires |Ready(pollfds, revents, i)| == |active| && AllReported(active, fds, revents)
      modifies Owned()`revents
      ensures Valid() && |more| + remaining == |fds|
      ensures |Ready(pollfds, revents, i + 1)| == |more| && AllReported(more, fds, revents)
    {
      remaining, more := left, active;
      if revents[i] > 0 {
        remaining := left - 1;
        more := Report(i, revents, active, fds);
      }
    }

    /** The kernel counted the slots with events: the scan stops when it has seen them all, and misses none. */
    method FillActiveChannels(revents: seq<nat>, numEvents: nat) returns (active: seq<Channel>)
      requires Valid() && Reportable(pollfds, revents) && numEvents == |Ready(pollfds, revents, |revents|)|
      modifies Owned()`revents
      ensures Valid() && |active| == numEvents
      ensures AllReported(active, Ready(pollfds, revents, |revents|), revents)
    {
      active := [];
      ghost var fds := Ready(pollfds, revents, |revents|);
      var left, i := numEvents, 0;
      while i < |pollfds| && left > 0
        invariant Valid() && i <= |pollfds| && |active| + left == numEvents
        invariant |Ready(pollfds, revents, i)| == |active| && AllReported(active, fds, revents)
      {
        ReadyGrows(pollfds, revents, i + 1, |revents|);
        left, active := ScanSlot(i, revents, left, active, fds);
        i := i + 1;
      }
    }
  }

  // ---- epoll(7) ----

  const NEW := -1
  const ADDED := 1
  const DELETED := 2

  datatype Entry = Entry(events: nat, channel: Channel)

  class EPollPoller {
    var channels: map<nat, Channel>
    // the table in the kernel
    var table: map<nat, Entry>
    // the interest of every registered channel
    ghost var masks: map<nat, nat>

    ghost function Owned(): set<Channel>
      reads this`channels
    {
      channels.Values
    }

    /** The table has exactly the channels in state ADDED, with their interest. */
    ghost predicate Matches(fd: nat)
      reads this, Owned()`index, Owned()`events
      requires fd in channels
    {
      var c := channels[fd];
      && c.fd == fd && fd in masks && c.events == masks[fd]
      && (c.index == ADDED || (c.index == DELETED && c.events == 0))
      && (c.index == ADDED <==> fd in table)
      && (fd in table ==> table[fd] == Entry(c.events, c))
    }

    ghost predicate Valid()
      reads this, Owned()`index, Owned()`events
    {
      && masks.Keys == channels.Keys && table.Keys <= channels.Keys
      && (forall fd :: fd in channels ==> Matches(fd))
    }

    /** What the table asks of the kernel. */
    function Interest(): Interest
      reads this`table
    {
      map fd | fd in table && table[fd].events != 0 :: table[fd].events
    }

    lemma InterestIsWanted()
      requires Valid()
      ensures Interest() == Wanted(masks)
    {
      forall fd | fd in table ensures fd in masks && table[fd].events == masks[fd] {
        assert Matches(fd);
      }
      forall fd | fd in masks && masks[fd] != 0 ensures fd in table {
        assert Matches(fd);
      }
    }

    constructor ()
      ensures Valid() && channels == map[] && masks == map[] && Interest() == map[]
    {
      channels, table, masks := map[], map[], map[];
    }

    // The three operations of epoll_ctl: the kernel refuses to add a descriptor twice, and to modify or
    // delete one that was not added.

    method Add(c: Channel)
      requires c.fd !in table
      modifies this`table
      ensures table == old(table)[c.fd := Entry(c.events, c)]
    {
      table := table[c.fd := Entry(c.events, c)];
    }

    method Modify(c: Channel)
      requires c.fd in table
      modifies this`table
      ensures table == old(table)[c.fd := Entry(c.events, c)]
    {
      table := table[c.fd := Entry(c.events, c)];
    }

    method Delete(c: Channel)
      requires c.fd in table
      modifies this`table
      ensures table == old(table) - {c.fd}
    {
      table := table - {c.fd};
    }

    /** What the assertions of an update demand. */
    predicate Accepts(c: Channel)
      reads this`channels, c`index
    {
      if c.index == NEW then c.fd !in channels else c.fd in channels && channels[c.fd] == c
    }

    /** The interest of a channel has become `events`. */
    method UpdateChannel(c: Channel, events: nat)
      requires Valid() && Accepts(c)
      modifies this, c`events, c`index
      ensures Valid() && channels == old(channels)[c.fd := c] && masks == old(masks)[c.fd := events]
      ensures c.index == if old(c.index) == ADDED && events == 0 then DELETED else ADDED
    {
      if c.index == NEW || c.index == DELETED {
        Register(c, events);
      } else {
        assert c.index == ADDED by {
          assert Matches(c.fd);
        }
        Change(c, events);
        assert channels == channels[c.fd := c];
      }
    }

    /** EPOLL_CTL_ADD, also of a channel that was only deleted from the table. */
    method Register(c: Channel, events: nat)
      requires Valid() && (c.index == NEW || c.index == DELETED) && Accepts(c)
      modifies this, c`events, c`index
      ensures Valid() && channels == old(channels)[c.fd := c] && masks == old(masks)[c.fd := events]
      ensures c.index == ADDED
    {
      assert forall fd :: fd in channels && channels[fd] != c ==> Matches(fd);
      assert c.index != NEW ==> Matches(c.fd);
      c.events := events;
      masks := masks[c.fd := events];
      channels := channels[c.fd := c];
      c.index := ADDED;
      Add(c);
    }

    /** EPOLL_CTL_MOD, or EPOLL_CTL_DEL for no interest. */
    method Change(c: Channel, events: nat)
      requires Valid() && c.fd in channels && channels[c.fd] == c && c.index == ADDED
      modifies this`table, this`masks, c`events, c`index
      ensures Valid() && masks == old(masks)[c.fd := events]
      ensures c.index == if events == 0 then DELETED else ADDED
    {
      assert forall fd :: fd in channels ==> Matches(fd);
      c.events := events;
      masks := masks[c.fd := events];
      if events == 0 {
        Delete(c);
        c.index := DELETED;
      } else {
        Modify(c);
      }
    }

    /** The same object may be added again. */
    method RemoveChannel(c: Channel)
      requires Valid() && c.fd in channels && channels[c.fd] == c && c.events == 0
      modifies this, c`index
      ensures Valid() && channels == old(channels) - {c.fd} && masks == old(masks) - {c.fd}
      ensures c.index == NEW && c.fd !in table && Accepts(c)
    {
      assert forall fd :: fd in channels ==> Matches(fd);
      var index := c.index;
      assert index == ADDED || index == DELETED;
      channels, masks := channels - {c.fd}, masks - {c.fd};
      if index == ADDED {
        Delete(c);
      }
      c.index := NEW;
    }

    /** The kernel hands back registered channels. */
    method FillActiveChannels(ready: seq<(nat, nat)>) returns (active: seq<Channel>)
      requires Valid() && forall i :: 0 <= i < |ready| ==> ready[i].0 in table
      requires forall i, j :: 0 <= i < j < |ready| ==> ready[i].0 != ready[j].0
      modifies Owned()`revents
      ensures Valid() && |active| == |ready|
      ensures forall i :: 0 <= i < |ready| ==>
                ready[i].0 in channels && active[i] == channels[ready[i].0] && active[i].revents == ready[i].1
    {
      active := [];
      for i := 0 to |ready|
        invariant Valid() && |active| == i
        invariant forall k :: 0 <= k < i ==>
                    ready[k].0 in channels && active[k] == channels[ready[k].0] && active[k].revents == ready[k].1
      {
        var channel := table[ready[i].0].channel;
        assert ready[i].0 in channels && channels[ready[i].0] == channel;
        channel.revents := ready[i].1;
        active := active + [channel];
      }
    }
  }

  // ---- The same calls on both ----

  method PerformPoll(p: PollPoller, call: Call, ghost r: map<nat, Registered>)
    requires p.Valid() && Follows(p.Array(), r) && Proper(r, call)
    modifies p, p.Owned()
    ensures p.Valid()
    ensures p.Array() == if call.Update? then Put(old(p.Array()), call.fd, call.events)
                         else Drop(old(p.Array()), call.fd)
    ensures fresh(p.Owned() - old(p.Owned()))
  {
    match call
    case Update(fd, events) =>
      var c;
      if fd in p.channels {
        c := p.channels[fd];
        assert p.Matches(fd);
      } else {
        c := new Channel(fd);
      }
      p.UpdateChannel(c, events);
    case Remove(fd) =>
      assert p.Matches(fd);
      p.RemoveChannel(p.channels[fd]);
  }

  method PerformEPoll(e: EPollPoller, call: Call, ghost r: map<nat, Registered>)
    requires e.Valid() && e.masks == Masks(r) && Proper(r, call)
    modifies e, e.Owned()
    ensures e.Valid() && e.masks == Masks(After(r, call))
    ensures fresh(e.Owned() - old(e.Owned()))
  {
    match call
    case Update(fd, events) =>
      MasksAfter(r, fd, events);
      var c;
      if fd in e.channels {
        c := e.channels[fd];
      } else {
        c := new Channel(fd);
      }
      e.UpdateChannel(c, events);
    case Remove(fd) =>
      e.RemoveChannel(e.channels[fd]);
  }

  method DrivePoll(calls: seq<Call>) returns (p: PollPoller)
    requires AllProper(calls)
    ensures fresh(p) && fresh(p.Owned())
    ensures p.Valid() && p.Array() == TableAfter(calls) && p.Interest() == Wanted(Masks(Registry(calls)))
    decreases |calls|
  {
    if calls == [] {
      p := new PollPoller();
    } else {
      var n := |calls| - 1;
      TableLast(calls);
      p := DrivePoll(calls[..n]);
      PerformPoll(p, calls[n], Registry(calls[..n]));
    }
    p.InterestIsWanted();
  }

  method DriveEPoll(calls: seq<Call>) returns (e: EPollPoller)
    requires AllProper(calls)
    ensures fresh(e) && fresh(e.Owned())
    ensures e.Valid() && e.masks == Masks(Registry(calls)) && e.Interest() == Wanted(e.masks)
    decreases |calls|
  {
    if calls == [] {
      e := new EPollPoller();
    } else {
      var n := |calls| - 1;
      ProperInit(calls);
      e := DriveEPoll(calls[..n]);
      PerformEPoll(e, calls[n], Registry(calls[..n]));
    }
    e.InterestIsWanted();
  }

  /** Driven by the same calls the two pollers ask the same of the kernel: what the calls want. */
  method Drive(calls: seq<Call>) returns (p: PollPoller, e: EPollPoller)
    requires AllProper(calls)
    ensures p.Valid() && e.Valid()
    ensures p.Interest() == e.Interest() == Wanted(Masks(Registry(calls)))
    ensures forall fd: nat, events: nat ::
              (fd in p.Interest() && p.Interest()[fd] == events) <==> events != 0 && LastIs(calls, Update(fd, events))
  {
    p := DrivePoll(calls);
    e := DriveEPoll(calls);
    forall fd: nat, events: nat
      ensures (fd in p.Interest() && p.Interest()[fd] == events)
              <==> events != 0 && LastIs(calls, Update(fd, events))
    {
      RegistryExactly(calls, fd, events);
    }
  }
}
