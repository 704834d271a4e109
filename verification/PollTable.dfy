/** The array of poll(2) as a value, and what a sequence of calls on a poller makes of it. */
module PollTable {

  /** What a poller asks of the kernel: the descriptors watched, and for what. */
  type Interest = map<nat, nat>

  /** The part of the registered interests that asks for something. */
  function Wanted(masks: map<nat, nat>): (m: Interest) {
    map fd | fd in masks && masks[fd] != 0 :: masks[fd]
  }

  /** A slot to be ignored has the negative code of its descriptor. */
  datatype PollFd = PollFd(fd: int, events: nat)
  {
    function Owner(): nat {
      if fd < 0 then -fd - 1 else fd
    }
    predicate Watched() {
      fd >= 0 && events != 0
    }
  }

  /** The slots, and by descriptor the index and the interest of each registered channel. */
  datatype Table = Table(slots: seq<PollFd>, at: map<nat, int>, masks: map<nat, nat>)
  {
    /** Slots and channels are in bijection, by the code in the slot one way and by index the other. */
    ghost predicate Linked() {
      && at.Keys == masks.Keys
      && (forall fd :: fd in at ==> 0 <= at[fd] < |slots| && slots[at[fd]].Owner() == fd)
      && (forall i {:trigger Placed(slots[i], i)} :: 0 <= i < |slots| ==> Placed(slots[i], i))
    }

    ghost predicate Placed(slot: PollFd, i: nat) {
      && slot.Owner() in at && at[slot.Owner()] == i
      && slot.Owner() in masks && slot.events == masks[slot.Owner()]
      && (slot.fd < 0 ==> slot.events == 0)
    }

    /** The kernel ignores the slot of a descriptor, as the assertion before its removal demands. */
    ghost predicate Ignored(fd: nat)
      requires Linked() && fd in at
    {
      slots[at[fd]].fd < 0
    }

    ghost function Decoded(): Interest
      requires Linked()
    {
      map fd | fd in at && slots[at[fd]].Watched() :: slots[at[fd]].events
    }
  }

  const NoSlots := Table([], map[], map[])

  /** The interest of a channel becomes `events`: a new slot, or the old one rewritten. */
  ghost function Put(t: Table, fd: nat, events: nat): Table
    requires t.Linked()
  {
    if fd !in t.at then Table(t.slots + [PollFd(fd, events)], t.at[fd := |t.slots|], t.masks[fd := events])
    else Table(t.slots[t.at[fd] := PollFd(if events == 0 then -1 - fd else fd, events)], t.at, t.masks[fd := events])
  }

  /** Swap-remove: the last slot takes the place of the removed one. */
  ghost function Drop(t: Table, fd: nat): Table
    requires t.Linked() && fd in t.at
  {
    var last := t.slots[|t.slots| - 1];
    Table(t.slots[t.at[fd] := last][..|t.slots| - 1], t.at[last.Owner() := t.at[fd]] - {fd}, t.masks - {fd})
  }

  lemma PutKeeps(t: Table, fd: nat, events: nat)
    requires t.Linked()
    ensures Put(t, fd, events).Linked()
    ensures Put(t, fd, events).Ignored(fd) <==> fd in t.at && events == 0
    ensures forall d :: d in t.at && d != fd ==> (Put(t, fd, events).Ignored(d) <==> t.Ignored(d))
  {
    var u := Put(t, fd, events);
    forall i | 0 <= i < |u.slots| ensures u.Placed(u.slots[i], i) {
      assert i < |t.slots| ==> t.Placed(t.slots[i], i);
    }
  }

  lemma DropKeeps(t: Table, fd: nat)
    requires t.Linked() && fd in t.at
    ensures Drop(t, fd).Linked()
    ensures forall d :: d in t.at && d != fd ==> (Drop(t, fd).Ignored(d) <==> t.Ignored(d))
  {
    var n, u := |t.slots| - 1, Drop(t, fd);
    assert t.Placed(t.slots[n], n) && t.Placed(t.slots[t.at[fd]], t.at[fd]);
    forall i | 0 <= i < |u.slots| ensures u.Placed(u.slots[i], i) {
      assert t.Placed(t.slots[i], i);
    }
  }

  /** A descriptor is asked for exactly by a slot that watches it, and no two slots have the same. */
  lemma DecodedExactly(t: Table, fd: nat, events: nat)
    requires t.Linked()
    ensures (fd in t.Decoded() && t.Decoded()[fd] == events)
            <==> exists i :: 0 <= i < |t.slots| && t.slots[i].Watched() && t.slots[i] == PollFd(fd, events)
    ensures forall i, j :: 0 <= i < |t.slots| && 0 <= j < |t.slots| && t.slots[i].Owner() == t.slots[j].Owner()
                           ==> i == j
  {
    forall i, j | 0 <= i < |t.slots| && 0 <= j < |t.slots| && t.slots[i].Owner() == t.slots[j].Owner()
      ensures i == j
    {
      assert t.Placed(t.slots[i], i) && t.Placed(t.slots[j], j);
    }
    if fd in t.at {
      assert t.Placed(t.slots[t.at[fd]], t.at[fd]);
    }
    forall i | 0 <= i < |t.slots| && t.slots[i] == PollFd(fd, events) ensures fd in t.at && t.at[fd] == i {
      assert t.Placed(t.slots[i], i);
    }
  }

  /** So the array asks for what the channels want. */
  lemma DecodedIsWanted(t: Table)
    requires t.Linked()
    ensures t.Decoded() == Wanted(t.masks)
  {
    forall fd | fd in t.at
      ensures t.slots[t.at[fd]].events == t.masks[fd] && (t.slots[t.at[fd]].Watched() <==> t.masks[fd] != 0)
    {
      assert t.Placed(t.slots[t.at[fd]], t.at[fd]);
    }
  }

  // ---- Sequences of calls ----

  datatype Call = Update(fd: nat, events: nat) | Remove(fd: nat)

  /** The last interest of a registered descriptor, and how often it was updated since it was registered. */
  datatype Registered = Registered(events: nat, updates: nat)
  {
    predicate Removable() {
      events == 0 && updates >= 2
    }
  }

  function After(r: map<nat, Registered>, call: Call): map<nat, Registered> {
    match call
    case Update(fd, events) => r[fd := Registered(events, 1 + if fd in r then r[fd].updates else 0)]
    case Remove(fd) => r - {fd}
  }

  /** Any update may come at any time; a channel may be removed without interest, after a second update. */
  predicate Proper(r: map<nat, Registered>, call: Call) {
    call.Remove? ==> call.fd in r && r[call.fd].Removable()
  }

  function Registry(calls: seq<Call>): (r: map<nat, Registered>) {
    if calls == [] then map[] else After(Registry(calls[..|calls| - 1]), calls[|calls| - 1])
  }

  /** A descriptor is registered with an interest exactly if the last call on it was an update to that. */
  lemma {:induction false} RegistryExactly(calls: seq<Call>, fd: nat, events: nat)
    ensures (fd in Registry(calls) && Registry(calls)[fd].events == events) <==> LastIs(calls, Update(fd, events))
  {
    if calls != [] {
      var n := |calls| - 1;
      RegistryExactly(calls[..n], fd, events);
      LastNext(calls, Update(fd, events));
    }
  }

  /** A call after which no other was on its descriptor. */
  ghost predicate LastAt(calls: seq<Call>, call: Call, k: int) {
    0 <= k < |calls| && calls[k] == call && forall j :: k < j < |calls| ==> calls[j].fd != call.fd
  }

  ghost predicate LastIs(calls: seq<Call>, call: Call) {
    exists k :: LastAt(calls, call, k)
  }

  lemma LastNext(calls: seq<Call>, call: Call)
    requires calls != []
    ensures var n := |calls| - 1;
            LastIs(calls, call) <==> calls[n] == call || (calls[n].fd != call.fd && LastIs(calls[..n], call))
  {
    var n := |calls| - 1;
    forall k ensures LastAt(calls, call, k)
                     <==> if k == n then calls[n] == call else calls[n].fd != call.fd && LastAt(calls[..n], call, k) {
      if LastAt(calls, call, k) && k != n {
        assert calls[n].fd != call.fd;
      }
    }
    assert LastAt(calls, call, n) <==> calls[n] == call;
    if calls[n].fd != call.fd && LastIs(calls[..n], call) {
      var k :| LastAt(calls[..n], call, k);
      assert LastAt(calls, call, k);
    }
  }

  function Masks(r: map<nat, Registered>): map<nat, nat> {
    map fd | fd in r :: r[fd].events
  }

  predicate AllProper(calls: seq<Call>) {
    forall i :: 0 <= i < |calls| ==> Proper(Registry(calls[..i]), calls[i])
  }

  lemma ProperInit(calls: seq<Call>)
    requires AllProper(calls) && calls != []
    ensures AllProper(calls[..|calls| - 1]) && Proper(Registry(calls[..|calls| - 1]), calls[|calls| - 1])
  {
    var init := calls[..|calls| - 1];
    forall i | 0 <= i < |init| ensures Proper(Registry(init[..i]), init[i]) {
      assert init[..i] == calls[..i];
    }
  }

  /** The table holds what is registered, and ignores exactly the channels that may be removed. */
  ghost predicate Follows(t: Table, r: map<nat, Registered>) {
    && t.Linked() && t.masks == Masks(r)
    && forall fd :: fd in r ==> fd in t.at && r[fd].updates >= 1 && (t.Ignored(fd) <==> r[fd].Removable())
  }

  lemma MasksAfter(r: map<nat, Registered>, fd: nat, events: nat)
    ensures Masks(After(r, Update(fd, events))) == Masks(r)[fd := events]
  {
  }

  lemma PutFollows(t: Table, r: map<nat, Registered>, fd: nat, events: nat)
    requires Follows(t, r)
    ensures Follows(Put(t, fd, events), After(r, Update(fd, events)))
  {
    PutKeeps(t, fd, events);
    MasksAfter(r, fd, events);
    assert t.masks.Keys == r.Keys;
  }

  lemma DropFollows(t: Table, r: map<nat, Registered>, fd: nat)
    requires Follows(t, r) && fd in r
    ensures Follows(Drop(t, fd), After(r, Remove(fd)))
  {
    DropKeeps(t, fd);
    assert Drop(t, fd).masks == Masks(After(r, Remove(fd)));
  }

  /** The table after a sequence of calls. */
  ghost function TableAfter(calls: seq<Call>): (t: Table)
    requires AllProper(calls)
    ensures Follows(t, Registry(calls))
  {
    if calls == [] then NoSlots
    else
      ProperInit(calls);
      var before, r := TableAfter(calls[..|calls| - 1]), Registry(calls[..|calls| - 1]);
      match calls[|calls| - 1]
      case Update(fd, events) => PutFollows(before, r, fd, events); Put(before, fd, events)
      case Remove(fd) => DropFollows(before, r, fd); Drop(before, fd)
  }

  lemma TableLast(calls: seq<Call>)
    requires AllProper(calls) && calls != []
    ensures var n := |calls| - 1;
            && AllProper(calls[..n]) && Proper(Registry(calls[..n]), calls[n])
            && TableAfter(calls) == match calls[n]
               case Update(fd, events) => Put(TableAfter(calls[..n]), fd, events)
               case Remove(fd) => Drop(TableAfter(calls[..n]), fd)
  {
    ProperInit(calls);
  }

  /** The assertions before a removal hold exactly for a channel without interest that was updated again
      after it was registered: one registered without interest and then removed breaks the second. */
  lemma RemovalFailsExactly(calls: seq<Call>, fd: nat)
    requires AllProper(calls) && fd in Registry(calls)
    ensures var t, r := TableAfter(calls), Registry(calls)[fd];
            && t.masks[fd] == r.events
            && (t.slots[t.at[fd]] == PollFd(-1 - fd, r.events) <==> r.events == 0 && r.updates >= 2)
            && (r.events == 0 ==> (t.slots[t.at[fd]] != PollFd(-1 - fd, 0) <==> r.updates == 1))
  {
    var t, r := TableAfter(calls), Registry(calls);
    assert t.Placed(t.slots[t.at[fd]], t.at[fd]);
  }

  /** The shortest run that breaks it. */
  lemma FailingRemoval(fd: nat)
    ensures var calls := [Update(fd, 0)];
            && AllProper(calls) && Registry(calls) == map[fd := Registered(0, 1)]
            && TableAfter(calls).slots == [PollFd(fd, 0)]
            && !Proper(Registry(calls), Remove(fd))
  {
    var calls := [Update(fd, 0)];
    assert calls[..0] == [];
    assert Registry(calls) == After(Registry([]), Update(fd, 0));
    assert TableAfter(calls) == Put(TableAfter([]), fd, 0);
  }
}
