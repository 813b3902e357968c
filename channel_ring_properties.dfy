/** What the handlers of ChannelRingSupport guarantee, stated over the state machine
    of ChannelRingModel. */
module ChannelRingProperties {

  import opened Options
  import opened Addresses
  import opened Seqs
  import opened Rings
  import opened ChannelRingModel

  // ---------------------------------------------------------------------------
  // The state invariant

  lemma InitialValid()
    ensures ValidState(Initial())
  {
  }

  /** createWrapper keeps the invariant: the new id is fresh, so the registry stays a set. */
  lemma ConnectWrapperValid(s: State, msg: ChannelChangedMessage, connect: Option<Channel>)
    requires ValidState(s)
    ensures ValidState(ConnectWrapper(s, msg, connect).1)
    ensures ConnectWrapper(s, msg, connect).0.Some? ==> ConnectWrapper(s, msg, connect).0.value in ConnectWrapper(s, msg, connect).1.wrappers
  {
    if connect.Some? {
      var id := s.nextId;
      assert id !in s.channelWrappers;
      var reg := s.channelWrappers + [id];
      forall i, j | 0 <= i < j < |reg| ensures reg[i] != reg[j] {
        if j == |reg| - 1 {
          assert reg[i] in s.channelWrappers;
        }
      }
    }
  }

  lemma AcquireWrapperValid(s: State, msg: ChannelChangedMessage, connect: Option<Channel>)
    requires ValidState(s)
    ensures ValidState(AcquireWrapper(s, msg, connect).1)
    ensures AcquireWrapper(s, msg, connect).0.Some? ==> AcquireWrapper(s, msg, connect).0.value in AcquireWrapper(s, msg, connect).1.wrappers
  {
    ConnectWrapperValid(s, msg, connect);
  }

  lemma CreateStepValid(s: State, msg: ChannelChangedMessage, connect: Option<Channel>)
    requires ValidState(s)
    ensures ValidState(CreateStep(s, msg, connect))
  {
    AcquireWrapperValid(s, msg, connect);
  }

  lemma RemoveStepValid(s: State, msg: ChannelChangedMessage)
    requires ValidState(s)
    ensures ValidState(RemoveStep(s, msg))
  {
    if msg.kind == Remove && msg.key in s.serviceChannelRings {
      var ring := s.serviceChannelRings[msg.key];
      var drop := AddressMatcher(s.wrappers, msg.address);
      RemoveWhereFromStart(ring, drop);
      RejectMembers(ring.elems, drop);
      RejectMembers(s.channelWrappers, InSet(Dropped(s.wrappers, ring.elems, msg.address)));
      RejectNoDuplicates(s.channelWrappers, InSet(Dropped(s.wrappers, ring.elems, msg.address)));
    }
  }

  lemma SelectStepValid(s: State, key: ServiceKey)
    requires ValidState(s)
    ensures ValidState(SelectStep(s, key).1)
  {
    if key in s.serviceChannelRings && !IsEmpty(s.serviceChannelRings[key]) {
      var ring := s.serviceChannelRings[key];
      RemoveWhereFromStart(Advance(ring), Same(Current(ring)));
      RejectMembers(ring.elems, Same(Current(ring)));
    }
  }

  lemma ReceiveStepValid(s: State, msg: Message, connect: Option<Channel>)
    requires ValidState(s)
    ensures ValidState(ReceiveStep(s, msg, connect))
  {
    if msg.ChannelChanged? {
      CreateStepValid(s, msg.event, connect);
      RemoveStepValid(s, msg.event);
    }
  }


  // ---------------------------------------------------------------------------
  // CREATE

  /** A CREATE for an address that some registered wrapper already has (the i-th
      being the first) reuses that wrapper: it is the one acquired, it gains exactly
      one reference, nothing
      else in the registry or the wrapper set changes, nothing is posted, and the
      outcome of a connect is irrelevant because no connect is attempted. */
  lemma CreateReusesFirstMatch(s: State, msg: ChannelChangedMessage, connect: Option<Channel>, other: Option<Channel>, i: nat)
    requires ValidState(s) && msg.kind == Create
    requires i < |s.channelWrappers| && Matches(s.wrappers, msg.address, s.channelWrappers[i])
    requires forall j :: 0 <= j < i ==> !Matches(s.wrappers, msg.address, s.channelWrappers[j])
    ensures AcquireWrapper(s, msg, connect).0 == Some(s.channelWrappers[i])
    ensures var s', w := CreateStep(s, msg, connect), s.channelWrappers[i];
      && s' == CreateStep(s, msg, other)
      && s'.wrappers.Keys == s.wrappers.Keys
      && s'.wrappers[w].refCount == s.wrappers[w].refCount + 1
      && (forall id :: id in s.wrappers && id != w ==> s'.wrappers[id] == s.wrappers[id])
      && s'.channelWrappers == s.channelWrappers
      && s'.effects == s.effects
      && s'.nextId == s.nextId
  {
    var f := FirstMatch(s.wrappers, s.channelWrappers, msg.address);
    assert f.Some?;
    assert f.value == i;
  }

  /** A CREATE for an address no registered wrapper has, whose connect succeeds,
      registers one fresh wrapper at the end of the registry, holding the new channel
      and exactly one reference, and posts nothing. */
  lemma CreateConnectsUnseen(s: State, msg: ChannelChangedMessage, channel: Channel)
    requires ValidState(s) && msg.kind == Create
    requires forall j :: 0 <= j < |s.channelWrappers| ==> !Matches(s.wrappers, msg.address, s.channelWrappers[j])
    ensures var s', id := CreateStep(s, msg, Some(channel)), s.nextId;
      && id !in s.wrappers
      && s'.wrappers == s.wrappers[id := Wrapper(channel, msg.provider, 1, false)]
      && s'.channelWrappers == s.channelWrappers + [id]
      && s'.effects == s.effects
  {
  }

  /** A CREATE for an unseen address whose connect fails creates nothing, leaves the
      registry and the ring table alone and posts the same event again, once. */
  lemma CreateRepostsOnConnectFailure(s: State, msg: ChannelChangedMessage)
    requires ValidState(s) && msg.kind == Create
    requires forall j :: 0 <= j < |s.channelWrappers| ==> !Matches(s.wrappers, msg.address, s.channelWrappers[j])
    ensures var s' := CreateStep(s, msg, None);
      && s'.wrappers == s.wrappers
      && s'.channelWrappers == s.channelWrappers
      && s'.serviceChannelRings == s.serviceChannelRings
      && s'.nextId == s.nextId
      && s'.effects == s.effects + [Repost(msg)]
  {
  }

  /** A successful CREATE appends the acquired wrapper to the end of its key's ring,
      creating the ring if the key had none, and leaves every other ring alone. */
  lemma CreateAppendsToRing(s: State, msg: ChannelChangedMessage, connect: Option<Channel>)
    requires ValidState(s) && msg.kind == Create
    requires AcquireWrapper(s, msg, connect).0.Some?
    ensures var s', w, rings := CreateStep(s, msg, connect), AcquireWrapper(s, msg, connect).0.value, s.serviceChannelRings;
      && msg.key in s'.serviceChannelRings
      && s'.serviceChannelRings[msg.key].elems == (if msg.key in rings then rings[msg.key].elems else []) + [w]
      && w in s'.channelWrappers
      && (forall k :: k != msg.key ==> (k in s'.serviceChannelRings <==> k in rings))
      && (forall k :: k != msg.key && k in rings ==> s'.serviceChannelRings[k] == rings[k])
  {
    var f := FirstMatch(s.wrappers, s.channelWrappers, msg.address);
    if f.Some? {
      assert s.channelWrappers[f.value] in s.channelWrappers;
    }
  }

  // ---------------------------------------------------------------------------
  // The loops of handleChannelRemove and of the eviction, one element at a time

  lemma DroppedStep(wrappers: map<WrapperId, Wrapper>, elems: seq<WrapperId>, x: WrapperId, addr: Option<SocketAddress>)
    ensures Dropped(wrappers, elems + [x], addr)
         == Dropped(wrappers, elems, addr) + (if Matches(wrappers, addr, x) then {x} else {})
  {
  }

  /** Before any wrapper of the ring is visited nothing has been dropped or released. */
  lemma RemoveNothing(wrappers: map<WrapperId, Wrapper>, registry: seq<WrapperId>, addr: Option<SocketAddress>)
    ensures Reject(registry, InSet(Dropped(wrappers, [], addr))) == registry
    ensures Released(wrappers, [], addr) == wrappers
  {
    assert Dropped(wrappers, [], addr) == {};
    RejectNone(registry);
  }

  lemma ReleasedStep(wrappers: map<WrapperId, Wrapper>, elems: seq<WrapperId>, x: WrapperId, addr: Option<SocketAddress>)
    requires Matches(wrappers, addr, x)
    ensures Released(wrappers, elems + [x], addr) == Dec(Released(wrappers, elems, addr), x)
  {
    assert multiset(elems + [x]) == multiset(elems) + multiset{x};
  }

  lemma ReleasedStepUnmatched(wrappers: map<WrapperId, Wrapper>, elems: seq<WrapperId>, x: WrapperId, addr: Option<SocketAddress>)
    requires !Matches(wrappers, addr, x)
    ensures Released(wrappers, elems + [x], addr) == Released(wrappers, elems, addr)
  {
    assert multiset(elems + [x]) == multiset(elems) + multiset{x};
  }

  /** One element of the remove walk, matched case: the loop's summary of what has been
      visited so far extends by that element. */
  lemma UnlinkStepMatched(r0: Ring<WrapperId>, w0: map<WrapperId, Wrapper>, reg0: seq<WrapperId>,
                          addr: Option<SocketAddress>, k: nat, x: WrapperId)
    requires k < |r0.elems| && x == r0.elems[k] && Matches(w0, addr, x)
    ensures Dropped(w0, r0.elems[..k + 1], addr) == Dropped(w0, r0.elems[..k], addr) + {x}
    ensures Reject(Reject(reg0, InSet(Dropped(w0, r0.elems[..k], addr))), Same(x))
         == Reject(reg0, InSet(Dropped(w0, r0.elems[..k + 1], addr)))
    ensures Dec(Released(w0, r0.elems[..k], addr), x) == Released(w0, r0.elems[..k + 1], addr)
    ensures UnregisterLog(w0, r0.elems[..k + 1], addr) == UnregisterLog(w0, r0.elems[..k], addr) + [Unregister(w0[x].channel.id)]
  {
    var done := r0.elems[..k];
    assert r0.elems[..k + 1] == done + [x];
    DroppedStep(w0, done, x, addr);
    RejectTwice(reg0, Dropped(w0, done, addr), x);
    ReleasedStep(w0, done, x, addr);
  }

  /** One element of the remove walk, unmatched case: nothing is dropped or released. */
  lemma UnlinkStepUnmatched(r0: Ring<WrapperId>, w0: map<WrapperId, Wrapper>, addr: Option<SocketAddress>,
                            k: nat, x: WrapperId)
    requires k < |r0.elems| && x == r0.elems[k] && !Matches(w0, addr, x)
    ensures Dropped(w0, r0.elems[..k + 1], addr) == Dropped(w0, r0.elems[..k], addr)
    ensures Released(w0, r0.elems[..k + 1], addr) == Released(w0, r0.elems[..k], addr)
    ensures UnregisterLog(w0, r0.elems[..k + 1], addr) == UnregisterLog(w0, r0.elems[..k], addr)
  {
    var done := r0.elems[..k];
    assert r0.elems[..k + 1] == done + [x];
    DroppedStep(w0, done, x, addr);
    ReleasedStepUnmatched(w0, done, x, addr);
  }

  /** The remove walk from any point of the loop ends in the closed form of RemoveStep,
      given that what has been visited so far (`r0.elems[..k]`) is summarised correctly. */
  lemma {:induction false} UnlinkWalkFrom(r0: Ring<WrapperId>, w0: map<WrapperId, Wrapper>, reg0: seq<WrapperId>,
                                          eff0: seq<Effect>, addr: Option<SocketAddress>, k: nat,
                                          ring: Ring<WrapperId>, pos: nat, reg: seq<WrapperId>,
                                          ws: map<WrapperId, Wrapper>, eff: seq<Effect>)
    requires pos <= |ring.elems| && k <= |r0.elems|
    requires ring.elems[pos..] == r0.elems[k..]
    requires RemoveWhere(ring, AddressMatcher(w0, addr), pos) == RemoveWhere(r0, AddressMatcher(w0, addr), 0)
    requires reg == Reject(reg0, InSet(Dropped(w0, r0.elems[..k], addr)))
    requires ws == Released(w0, r0.elems[..k], addr)
    requires eff == eff0 + UnregisterLog(w0, r0.elems[..k], addr)
    ensures UnlinkWalk(ring, pos, reg, ws, eff, addr)
         == (RemoveWhere(r0, AddressMatcher(w0, addr), 0), Reject(reg0, InSet(Dropped(w0, r0.elems, addr))),
             Released(w0, r0.elems, addr), eff0 + UnregisterLog(w0, r0.elems, addr))
    decreases |ring.elems| - pos
  {
    if pos == |ring.elems| {
      assert r0.elems[..k] == r0.elems;
    } else {
      var x := ring.elems[pos];
      SuffixStep(ring.elems, pos, r0.elems, k);
      if Matches(w0, addr, x) {
        UnlinkStepMatched(r0, w0, reg0, addr, k, x);
        RemoveAtSuffix(ring, pos);
        UnlinkWalkFrom(r0, w0, reg0, eff0, addr, k + 1, RemoveAt(ring, pos), pos,
                       Reject(reg, Same(x)), Dec(ws, x), eff + [Unregister(ws[x].channel.id)]);
      } else {
        UnlinkStepUnmatched(r0, w0, addr, k, x);
        UnlinkWalkFrom(r0, w0, reg0, eff0, addr, k + 1, ring, pos + 1, reg, ws, eff);
      }
    }
  }

  /** The walk over a whole ring performs exactly RemoveStep's transition. */
  lemma UnlinkWalkIsRemove(ring: Ring<WrapperId>, wrappers: map<WrapperId, Wrapper>, registry: seq<WrapperId>,
                           effects: seq<Effect>, addr: Option<SocketAddress>)
    ensures UnlinkWalk(ring, 0, registry, wrappers, effects, addr)
         == (RemoveWhere(ring, AddressMatcher(wrappers, addr), 0), Reject(registry, InSet(Dropped(wrappers, ring.elems, addr))),
             Released(wrappers, ring.elems, addr), effects + UnregisterLog(wrappers, ring.elems, addr))
  {
    assert ring.elems[..0] == [];
    RemoveNothing(wrappers, registry, addr);
    UnlinkWalkFrom(ring, wrappers, registry, effects, addr, 0, ring, 0, registry, wrappers, effects);
  }

  /** One element of the eviction walk: the summaries of the visited prefix extend
      by that element. */
  lemma EvictStep(r0: Ring<WrapperId>, wrappers: map<WrapperId, Wrapper>, suspect: WrapperId, channel: ChannelId, k: nat)
    requires k < |r0.elems|
    ensures var x := r0.elems[k];
      && LastHealthy(wrappers, r0.elems[..k + 1]) == (if Healthy(wrappers, x) then Some(x) else LastHealthy(wrappers, r0.elems[..k]))
      && EvictionLog(channel, r0.elems[..k + 1], suspect)
         == EvictionLog(channel, r0.elems[..k], suspect) + (if x == suspect then [Disconnect(channel), Close(channel)] else [])
  {
    PrefixStep(r0.elems, k);
  }

  /** The eviction walk from any point of the loop ends in the closed form of
      SelectStep's suspect branch, given that what has been visited so far
      (`r0.elems[..k]`) is summarised correctly. */
  lemma {:induction false} EvictWalkFrom(r0: Ring<WrapperId>, wrappers: map<WrapperId, Wrapper>, suspect: WrapperId,
                                         channel: ChannelId, eff0: seq<Effect>, k: nat,
                                         ring: Ring<WrapperId>, pos: nat, another: Option<WrapperId>, eff: seq<Effect>)
    requires pos <= |ring.elems| && k <= |r0.elems|
    requires ring.elems[pos..] == r0.elems[k..]
    requires RemoveWhere(ring, Same(suspect), pos) == RemoveWhere(r0, Same(suspect), 0)
    requires another == LastHealthy(wrappers, r0.elems[..k])
    requires eff == eff0 + EvictionLog(channel, r0.elems[..k], suspect)
    ensures EvictWalk(ring, pos, wrappers, suspect, channel, another, eff)
         == (RemoveWhere(r0, Same(suspect), 0), LastHealthy(wrappers, r0.elems), eff0 + EvictionLog(channel, r0.elems, suspect))
    decreases |ring.elems| - pos
  {
    if pos == |ring.elems| {
      assert r0.elems[..k] == r0.elems;
    } else {
      var x := ring.elems[pos];
      SuffixStep(ring.elems, pos, r0.elems, k);
      EvictStep(r0, wrappers, suspect, channel, k);
      var another' := if Healthy(wrappers, x) then Some(x) else another;
      if x == suspect {
        var ring', eff' := RemoveAt(ring, pos), eff + [Disconnect(channel), Close(channel)];
        assert RemoveWhere(ring, Same(suspect), pos) == RemoveWhere(ring', Same(suspect), pos);
        assert EvictWalk(ring, pos, wrappers, suspect, channel, another, eff)
            == EvictWalk(ring', pos, wrappers, suspect, channel, another', eff');
        RemoveAtSuffix(ring, pos);
        EvictWalkFrom(r0, wrappers, suspect, channel, eff0, k + 1, ring', pos, another', eff');
      } else {
        assert RemoveWhere(ring, Same(suspect), pos) == RemoveWhere(ring, Same(suspect), pos + 1);
        assert EvictWalk(ring, pos, wrappers, suspect, channel, another, eff)
            == EvictWalk(ring, pos + 1, wrappers, suspect, channel, another', eff);
        EvictWalkFrom(r0, wrappers, suspect, channel, eff0, k + 1, ring, pos + 1, another', eff);
      }
    }
  }

  /** The eviction walk over a whole ring performs exactly SelectStep's suspect branch. */
  lemma EvictWalkIsEviction(ring: Ring<WrapperId>, wrappers: map<WrapperId, Wrapper>, suspect: WrapperId,
                            channel: ChannelId, effects: seq<Effect>)
    ensures EvictWalk(ring, 0, wrappers, suspect, channel, None, effects)
         == (RemoveWhere(ring, Same(suspect), 0), LastHealthy(wrappers, ring.elems), effects + EvictionLog(channel, ring.elems, suspect))
  {
    assert ring.elems[..0] == [];
    EvictWalkFrom(ring, wrappers, suspect, channel, effects, 0, ring, 0, None, effects);
  }

  // ---------------------------------------------------------------------------
  // Dispatch and no-ops

  /** Messages other than channel changes are ignored; each handler ignores events
      of the other type; a REMOVE for a key without a ring changes nothing. */
  lemma IgnoredEvents(s: State, msg: ChannelChangedMessage, connect: Option<Channel>)
    ensures ReceiveStep(s, OtherMessage, connect) == s
    ensures msg.kind != Create ==> CreateStep(s, msg, connect) == s
    ensures msg.kind != Remove ==> RemoveStep(s, msg) == s
    ensures msg.key !in s.serviceChannelRings ==> RemoveStep(s, msg) == s
  {
  }

  // ---------------------------------------------------------------------------
  // REMOVE

  lemma {:induction false} RejectAppend<T>(s: seq<T>, drop: T -> bool, x: T)
    ensures Reject(s + [x], drop) == Reject(s, drop) + (if drop(x) then [] else [x])
  {
    if s != [] {
      RejectAppend(s[1..], drop, x);
      assert (s + [x])[1..] == s[1..] + [x];
    }
  }

  /** One unRegister per occurrence of a matching wrapper: the log and the kept
      elements together account for the whole ring. */
  lemma {:induction false} UnregisterLogCount(wrappers: map<WrapperId, Wrapper>, elems: seq<WrapperId>, addr: Option<SocketAddress>)
    ensures |UnregisterLog(wrappers, elems, addr)| + |Reject(elems, AddressMatcher(wrappers, addr))| == |elems|
    ensures forall i :: 0 <= i < |UnregisterLog(wrappers, elems, addr)| ==> UnregisterLog(wrappers, elems, addr)[i].Unregister?
  {
    if elems != [] {
      var prefix, last := elems[..|elems| - 1], elems[|elems| - 1];
      UnregisterLogCount(wrappers, prefix, addr);
      assert elems == prefix + [last];
      RejectAppend(prefix, AddressMatcher(wrappers, addr), last);
    }
  }

  /** Every matching wrapper of the ring has its channel unregistered. */
  lemma {:induction false} UnregisterLogCovers(wrappers: map<WrapperId, Wrapper>, elems: seq<WrapperId>, addr: Option<SocketAddress>, id: WrapperId)
    requires id in elems && Matches(wrappers, addr, id)
    ensures Unregister(wrappers[id].channel.id) in UnregisterLog(wrappers, elems, addr)
  {
    var prefix, last := elems[..|elems| - 1], elems[|elems| - 1];
    assert elems == prefix + [last];
    if last != id {
      UnregisterLogCovers(wrappers, prefix, addr, id);
    }
  }

  /** After a REMOVE, the key's ring holds no wrapper connected to the event's
      address, and no other ring changes. */
  lemma RemoveClearsAddressFromRing(s: State, msg: ChannelChangedMessage)
    requires ValidState(s) && msg.kind == Remove && msg.key in s.serviceChannelRings
    ensures var s' := RemoveStep(s, msg);
      var after := s'.serviceChannelRings[msg.key].elems;
      && (forall i :: 0 <= i < |after| ==> !Matches(s'.wrappers, msg.address, after[i]))
      && s'.serviceChannelRings.Keys == s.serviceChannelRings.Keys
      && (forall k :: k in s.serviceChannelRings && k != msg.key ==> s'.serviceChannelRings[k] == s.serviceChannelRings[k])
  {
    var s' := RemoveStep(s, msg);
    var before := s.serviceChannelRings[msg.key].elems;
    var drop := AddressMatcher(s.wrappers, msg.address);
    RemoveWhereFromStart(s.serviceChannelRings[msg.key], drop);
    var after := Reject(before, drop);
    assert s'.serviceChannelRings[msg.key].elems == after;
    RejectMembers(before, drop);
    forall i | 0 <= i < |after| ensures !Matches(s'.wrappers, msg.address, after[i]) {
      assert after[i] in after;
    }
  }

  /** A REMOVE keeps every wrapper of the key's ring that is not connected to the
      event's address, with all its occurrences and in their relative order. */
  lemma RemoveKeepsOthersInRing(s: State, msg: ChannelChangedMessage)
    requires ValidState(s) && msg.kind == Remove && msg.key in s.serviceChannelRings
    ensures var s', before := RemoveStep(s, msg), s.serviceChannelRings[msg.key].elems;
      var after := s'.serviceChannelRings[msg.key].elems;
      && (forall id :: !Matches(s.wrappers, msg.address, id) ==> multiset(after)[id] == multiset(before)[id])
      && IsSubsequence(after, before)
  {
    var s' := RemoveStep(s, msg);
    var before := s.serviceChannelRings[msg.key].elems;
    var drop := AddressMatcher(s.wrappers, msg.address);
    RemoveWhereFromStart(s.serviceChannelRings[msg.key], drop);
    var after := Reject(before, drop);
    assert s'.serviceChannelRings[msg.key].elems == after;
    RejectIsSubsequence(before, drop);
    forall id | !Matches(s.wrappers, msg.address, id)
      ensures multiset(after)[id] == multiset(before)[id]
    {
      RejectCount(before, drop, id);
    }
  }

  /** Each wrapper removed by a REMOVE leaves the registry whatever its reference
      count, has its channel unregistered and loses one reference per occurrence in
      the ring. Every other wrapper keeps its registry place (in order) and its state;
      the only effects are unregistrations, one per removed occurrence. */
  lemma RemoveReleasesMatches(s: State, msg: ChannelChangedMessage)
    requires ValidState(s) && msg.kind == Remove && msg.key in s.serviceChannelRings
    ensures var s', before := RemoveStep(s, msg), s.serviceChannelRings[msg.key].elems;
      && (forall id :: id in before && Matches(s.wrappers, msg.address, id) ==>
            && id !in s'.channelWrappers
            && Unregister(s.wrappers[id].channel.id) in s'.effects[|s.effects|..]
            && s'.wrappers[id].refCount == s.wrappers[id].refCount - multiset(before)[id])
      && (forall id :: id in s.channelWrappers && !(id in before && Matches(s.wrappers, msg.address, id)) ==>
            id in s'.channelWrappers)
      && IsSubsequence(s'.channelWrappers, s.channelWrappers)
      && (forall id :: id in s.wrappers && !(id in before && Matches(s.wrappers, msg.address, id)) ==>
            s'.wrappers[id] == s.wrappers[id])
      && s'.effects[..|s.effects|] == s.effects
      && |s'.effects| - |s.effects| == |before| - |s'.serviceChannelRings[msg.key].elems|
      && (forall i :: |s.effects| <= i < |s'.effects| ==> s'.effects[i].Unregister?)
  {
    var s' := RemoveStep(s, msg);
    var before := s.serviceChannelRings[msg.key].elems;
    var log := UnregisterLog(s.wrappers, before, msg.address);
    assert s'.effects[|s.effects|..] == log;
    forall id | id in before && Matches(s.wrappers, msg.address, id)
      ensures Unregister(s.wrappers[id].channel.id) in s'.effects[|s.effects|..]
    {
      UnregisterLogCovers(s.wrappers, before, msg.address, id);
    }
    RejectMembers(s.channelWrappers, InSet(Dropped(s.wrappers, before, msg.address)));
    RejectIsSubsequence(s.channelWrappers, InSet(Dropped(s.wrappers, before, msg.address)));
    UnregisterLogCount(s.wrappers, before, msg.address);
    RemoveWhereFromStart(s.serviceChannelRings[msg.key], AddressMatcher(s.wrappers, msg.address));
    forall i | |s.effects| <= i < |s'.effects| ensures s'.effects[i].Unregister? {
      assert s'.effects[i] == log[i - |s.effects|];
    }
  }

  // ---------------------------------------------------------------------------
  // Selection

  /** Without a ring for the key, or with an empty one, selection yields null and
      changes nothing. */
  lemma SelectWithoutProvider(s: State, key: ServiceKey)
    requires ValidState(s)
    requires key !in s.serviceChannelRings || IsEmpty(s.serviceChannelRings[key])
    ensures SelectStep(s, key) == (None, s)
  {
  }

  /** When the wrapper under the cursor is not maybe-down, selection returns it,
      advances the cursor and removes nothing. */
  lemma SelectHealthyPick(s: State, key: ServiceKey)
    requires ValidState(s) && key in s.serviceChannelRings && !IsEmpty(s.serviceChannelRings[key])
    requires Healthy(s.wrappers, Current(s.serviceChannelRings[key]))
    ensures var (r, s') := SelectStep(s, key); var ring := s.serviceChannelRings[key];
      && r == Some(Current(ring))
      && s'.serviceChannelRings[key] == Advance(ring)
      && s'.serviceChannelRings[key].elems == ring.elems
      && s'.wrappers == s.wrappers && s'.channelWrappers == s.channelWrappers && s'.effects == s.effects
      && s'.serviceChannelRings.Keys == s.serviceChannelRings.Keys
      && (forall k :: k in s.serviceChannelRings && k != key ==> s'.serviceChannelRings[k] == s.serviceChannelRings[k])
  {
  }

  /** Two log entries, a disconnect then a close of `channel`, per occurrence of `w`. */
  lemma {:induction false} EvictionLogShape(channel: ChannelId, elems: seq<WrapperId>, w: WrapperId)
    ensures |EvictionLog(channel, elems, w)| == 2 * multiset(elems)[w]
    ensures forall i :: 0 <= i < |EvictionLog(channel, elems, w)| ==>
              EvictionLog(channel, elems, w)[i] == if i % 2 == 0 then Disconnect(channel) else Close(channel)
  {
    if elems != [] {
      var prefix := elems[..|elems| - 1];
      EvictionLogShape(channel, prefix, w);
      assert elems == prefix + [elems[|elems| - 1]];
    }
  }

  /** LastHealthy yields the element at the last healthy index of `elems`. */
  lemma {:induction false} LastHealthyIsLast(wrappers: map<WrapperId, Wrapper>, elems: seq<WrapperId>, i: nat)
    requires i < |elems| && Healthy(wrappers, elems[i])
    requires forall j :: i < j < |elems| ==> !Healthy(wrappers, elems[j])
    ensures LastHealthy(wrappers, elems) == Some(elems[i])
  {
    var n := |elems| - 1;
    if i < n {
      var prefix := elems[..n];
      assert prefix[i] == elems[i];
      forall j | i < j < |prefix| ensures !Healthy(wrappers, prefix[j]) {
        assert prefix[j] == elems[j];
      }
      LastHealthyIsLast(wrappers, prefix, i);
    }
  }

  /** When the wrapper under the cursor is maybe-down, every occurrence of it leaves
      the ring and nothing else does, in order. */
  lemma SelectEvictsSuspect(s: State, key: ServiceKey)
    requires ValidState(s) && key in s.serviceChannelRings && !IsEmpty(s.serviceChannelRings[key])
    requires !Healthy(s.wrappers, Current(s.serviceChannelRings[key]))
    ensures var before, w := s.serviceChannelRings[key].elems, Current(s.serviceChannelRings[key]);
      var after := SelectStep(s, key).1.serviceChannelRings[key].elems;
      && w !in after
      && (forall y :: y != w ==> multiset(after)[y] == multiset(before)[y])
      && IsSubsequence(after, before)
  {
    var ring := s.serviceChannelRings[key];
    var w := Current(ring);
    var before := ring.elems;
    var after := Reject(before, Same(w));
    RemoveWhereFromStart(Advance(ring), Same(w));
    assert SelectStep(s, key).1.serviceChannelRings[key].elems == after;
    RejectMembers(before, Same(w));
    RejectIsSubsequence(before, Same(w));
    forall y | y != w ensures multiset(after)[y] == multiset(before)[y] {
      RejectCount(before, Same(w), y);
    }
  }

  /** When the wrapper under the cursor is maybe-down, the result is the last healthy
      wrapper in traversal order, or null when there is none; a returned wrapper is
      healthy and still in the ring, so a suspect wrapper is never returned. */
  lemma SelectReturnsLastHealthy(s: State, key: ServiceKey)
    requires ValidState(s) && key in s.serviceChannelRings && !IsEmpty(s.serviceChannelRings[key])
    requires !Healthy(s.wrappers, Current(s.serviceChannelRings[key]))
    ensures var before := s.serviceChannelRings[key].elems;
      var r, after := SelectStep(s, key).0, SelectStep(s, key).1.serviceChannelRings[key].elems;
      && r == LastHealthy(s.wrappers, before)
      && (r.None? <==> forall i :: 0 <= i < |before| ==> !Healthy(s.wrappers, before[i]))
      && (r.Some? ==> Healthy(s.wrappers, r.value) && r.value in after)
  {
    var ring := s.serviceChannelRings[key];
    var w := Current(ring);
    var before := ring.elems;
    var after := Reject(before, Same(w));
    var r := LastHealthy(s.wrappers, before);
    assert SelectStep(s, key).0 == r;
    RemoveWhereFromStart(Advance(ring), Same(w));
    assert SelectStep(s, key).1.serviceChannelRings[key].elems == after;
    if r.Some? {
      assert r.value != w;
      RejectMembers(before, Same(w));
      assert r.value in after;
    }
  }

  /** The eviction disconnects and closes the suspect wrapper's channel once per
      occurrence and touches neither the registry nor any reference count nor any
      other ring. */
  lemma SelectEvictionEffects(s: State, key: ServiceKey)
    requires ValidState(s) && key in s.serviceChannelRings && !IsEmpty(s.serviceChannelRings[key])
    requires !Healthy(s.wrappers, Current(s.serviceChannelRings[key]))
    ensures var s' := SelectStep(s, key).1;
      var before, w := s.serviceChannelRings[key].elems, Current(s.serviceChannelRings[key]);
      var channel := s.wrappers[w].channel.id;
      && s'.effects[..|s.effects|] == s.effects
      && |s'.effects| == |s.effects| + 2 * multiset(before)[w]
      && (forall i :: |s.effects| <= i < |s'.effects| ==>
            s'.effects[i] == if (i - |s.effects|) % 2 == 0 then Disconnect(channel) else Close(channel))
      && s'.wrappers == s.wrappers && s'.channelWrappers == s.channelWrappers
      && s'.serviceChannelRings.Keys == s.serviceChannelRings.Keys
      && (forall k :: k in s.serviceChannelRings && k != key ==> s'.serviceChannelRings[k] == s.serviceChannelRings[k])
  {
    var ring := s.serviceChannelRings[key];
    var w := Current(ring);
    var channel := s.wrappers[w].channel.id;
    var log := EvictionLog(channel, ring.elems, w);
    var s' := SelectStep(s, key).1;
    EvictionLogShape(channel, ring.elems, w);
    assert s'.effects == s.effects + log;
    forall i | |s.effects| <= i < |s'.effects|
      ensures s'.effects[i] == if (i - |s.effects|) % 2 == 0 then Disconnect(channel) else Close(channel)
    {
      assert s'.effects[i] == log[i - |s.effects|];
    }
  }

  // ---------------------------------------------------------------------------
  // Repeated CREATE events for one address

  /** CREATE events handled in order, each with the same connect outcome. */
  function CreateAll(s: State, events: seq<ChannelChangedMessage>, connect: Option<Channel>): State
    decreases |events|
  {
    if events == [] then s else CreateAll(CreateStep(s, events[0], connect), events[1..], connect)
  }

  /** The registry holds exactly one wrapper, `id`, connected to `addr`. */
  ghost predicate OnlyWrapperFor(s: State, addr: SocketAddress, id: WrapperId)
  {
    && id in s.channelWrappers
    && forall x :: x in s.channelWrappers ==> (Matches(s.wrappers, Some(addr), x) <==> x == id)
  }

  /** Once one wrapper serves `addr`, every further CREATE for `addr` reuses it and
      adds one reference, whatever the key and whatever the connect outcome. */
  lemma {:induction false} CreatesReuseOnlyWrapper(s: State, events: seq<ChannelChangedMessage>, connect: Option<Channel>, addr: SocketAddress, id: WrapperId)
    requires ValidState(s) && OnlyWrapperFor(s, addr, id)
    requires forall e :: e in events ==> e.kind == Create && e.address == Some(addr)
    ensures var s' := CreateAll(s, events, connect);
      && ValidState(s')
      && OnlyWrapperFor(s', addr, id)
      && s'.wrappers[id].refCount == s.wrappers[id].refCount + |events|
    decreases |events|
  {
    if events != [] {
      var e := events[0];
      var i :| 0 <= i < |s.channelWrappers| && s.channelWrappers[i] == id;
      assert forall j :: 0 <= j < i ==> !Matches(s.wrappers, e.address, s.channelWrappers[j]) by {
        forall j | 0 <= j < i ensures !Matches(s.wrappers, e.address, s.channelWrappers[j]) {
          assert s.channelWrappers[j] in s.channelWrappers;
          assert s.channelWrappers[j] != id;
        }
      }
      CreateReusesFirstMatch(s, e, connect, connect, i);
      CreateStepValid(s, e, connect);
      var s1 := CreateStep(s, e, connect);
      assert OnlyWrapperFor(s1, addr, id) by {
        forall x | x in s1.channelWrappers ensures Matches(s1.wrappers, Some(addr), x) <==> x == id {
          assert Matches(s1.wrappers, Some(addr), x) <==> Matches(s.wrappers, Some(addr), x);
        }
      }
      CreatesReuseOnlyWrapper(s1, events[1..], connect, addr, id);
    }
  }

  /** A CREATE for an address no registered wrapper serves, with a connect that
      reaches it, makes the new wrapper the only one serving the address. */
  lemma FirstCreateServes(s: State, e: ChannelChangedMessage, channel: Channel, addr: SocketAddress)
    requires ValidState(s) && e.kind == Create && e.address == Some(addr)
    requires channel.remoteAddress == Some(addr)
    requires forall x :: x in s.channelWrappers ==> !Matches(s.wrappers, Some(addr), x)
    ensures var s1 := CreateStep(s, e, Some(channel));
      && ValidState(s1)
      && OnlyWrapperFor(s1, addr, s.nextId)
      && s1.wrappers[s.nextId].refCount == 1
  {
    assert forall j :: 0 <= j < |s.channelWrappers| ==> !Matches(s.wrappers, e.address, s.channelWrappers[j]) by {
      forall j | 0 <= j < |s.channelWrappers| ensures !Matches(s.wrappers, e.address, s.channelWrappers[j]) {
        assert s.channelWrappers[j] in s.channelWrappers;
      }
    }
    CreateConnectsUnseen(s, e, channel);
    CreateStepValid(s, e, Some(channel));
    var s1 := CreateStep(s, e, Some(channel));
    var id := s.nextId;
    forall x | x in s1.channelWrappers ensures Matches(s1.wrappers, Some(addr), x) <==> x == id {
      if x != id {
        assert x in s.channelWrappers;
      }
    }
  }

  /** Any number n >= 1 of CREATE events for one address, under any keys, starting
      where no wrapper serves that address and with a connect that reaches it, leave
      exactly one registered wrapper for the address, with reference count n. */
  lemma CreatesShareOneWrapper(s: State, events: seq<ChannelChangedMessage>, channel: Channel, addr: SocketAddress)
    requires ValidState(s) && events != []
    requires forall e :: e in events ==> e.kind == Create && e.address == Some(addr)
    requires channel.remoteAddress == Some(addr)
    requires forall x :: x in s.channelWrappers ==> !Matches(s.wrappers, Some(addr), x)
    ensures var s', id := CreateAll(s, events, Some(channel)), s.nextId;
      && OnlyWrapperFor(s', addr, id)
      && s'.wrappers[id].refCount == |events|
  {
    var e := events[0];
    assert e in events;
    FirstCreateServes(s, e, channel, addr);
    var s1 := CreateStep(s, e, Some(channel));
    forall e' | e' in events[1..] ensures e'.kind == Create && e'.address == Some(addr) {
      assert e' in events;
    }
    CreatesReuseOnlyWrapper(s1, events[1..], Some(channel), addr, s.nextId);
  }

  // ---------------------------------------------------------------------------
  // Scenarios

  /** CREATE for one address under two keys: one wrapper with two references, and
      the same wrapper in both keys' rings. */
  lemma TwoKeysShareOneConnection(k1: ServiceKey, k2: ServiceKey, addr: SocketAddress, channel: Channel, later: Option<Channel>)
    requires k1 != k2 && channel.remoteAddress == Some(addr)
    ensures var s := CreateStep(CreateStep(Initial(), ChannelChangedMessage(Create, k1, Some(addr), "p"), Some(channel)),
                                ChannelChangedMessage(Create, k2, Some(addr), "p"), later);
      && s.channelWrappers == [0]
      && s.wrappers[0].refCount == 2
      && s.serviceChannelRings[k1].elems == [0]
      && s.serviceChannelRings[k2].elems == [0]
  {
    var s1 := CreateStep(Initial(), ChannelChangedMessage(Create, k1, Some(addr), "p"), Some(channel));
    assert s1.channelWrappers == [0];
    assert FirstMatch(s1.wrappers, s1.channelWrappers, Some(addr)) == Some(0);
  }

  /** A failed connect leaves the key without provider and re-posts the event. */
  lemma FailedConnectLeavesNoProvider(key: ServiceKey, addr: SocketAddress)
    ensures var msg := ChannelChangedMessage(Create, key, Some(addr), "p");
      var s := CreateStep(Initial(), msg, None);
      && s.effects == [Repost(msg)]
      && ValidState(s)
      && SelectStep(s, key).0 == None
  {
  }

  lemma MiddleEvictionLog(ch: ChannelId)
    ensures EvictionLog(ch, [0, 1, 2], 1) == [Disconnect(ch), Close(ch)]
  {
    var s3: seq<WrapperId>, s2: seq<WrapperId>, s1: seq<WrapperId> := [0, 1, 2], [0, 1], [0];
    assert s3[..2] == s2 && s2[..1] == s1 && s1[..0] == [];
    assert EvictionLog(ch, s1, 1) == [];
    assert EvictionLog(ch, s2, 1) == [Disconnect(ch), Close(ch)];
  }

  /** Wrappers 0, 1, 2 (A, B, C) registered and in the ring of `key` in that order,
      the cursor on B. */
  function ThreeInRing(a: Wrapper, b: Wrapper, c: Wrapper, key: ServiceKey): State
  {
    State(map[0 := a, 1 := b, 2 := c], [0, 1, 2], map[key := Ring([0, 1, 2], 1)], [], 3)
  }

  /** Ring [A, B, C] with the cursor on B, B maybe-down: C is returned, B is closed
      and the ring becomes [A, C]. */
  lemma SuspectInTheMiddle(a: Wrapper, b: Wrapper, c: Wrapper, key: ServiceKey)
    requires !a.maybeDown && b.maybeDown && !c.maybeDown
    ensures ValidState(ThreeInRing(a, b, c, key))
    ensures SelectStep(ThreeInRing(a, b, c, key), key).0 == Some(2)
    ensures SelectStep(ThreeInRing(a, b, c, key), key).1.serviceChannelRings[key].elems == [0, 2]
    ensures SelectStep(ThreeInRing(a, b, c, key), key).1.effects == [Disconnect(b.channel.id), Close(b.channel.id)]
  {
    var s := ThreeInRing(a, b, c, key);
    var elems: seq<WrapperId> := [0, 1, 2];
    var ring := Ring(elems, 1);
    assert ValidState(s);
    ModSmall(1, 3);
    assert Current(ring) == 1;
    var ch := b.channel.id;
    var kept := Reject(elems, Same(1));
    assert kept == [0, 2] by {
      assert elems[1..] == [1, 2] && elems[1..][1..] == [2] && elems[1..][1..][1..] == [];
    }
    RemoveWhereFromStart(Advance(ring), Same(1));
    MiddleEvictionLog(ch);
    assert LastHealthy(s.wrappers, elems) == Some(2);
    assert s.serviceChannelRings[key] == ring;
    assert !Healthy(s.wrappers, 1);
    assert s.wrappers[1].channel.id == ch;
    assert SelectStep(s, key).0 == Some(2);
    assert SelectStep(s, key).1.effects == EvictionLog(ch, elems, 1);
  }
}
