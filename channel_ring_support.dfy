/** ChannelRingSupport: the connection pool of the RPC consumer, with the Netty
    transport removed. Its fields are updated in place by the membership handlers and
    by selection; each method is proved to perform exactly the transition that
    ChannelRingModel specifies, and ChannelRingProperties proves what those
    transitions guarantee. */
module ConsumerSupport {

  import opened Options
  import opened Addresses
  import opened Seqs
  import opened Rings
  import opened ChannelRingModel
  import opened ChannelRingProperties

  class ChannelRingSupport {
    /** The wrapper objects, by identity. */
    var wrappers: map<WrapperId, Wrapper>
    /** The insertion-ordered set of live wrappers, used to reuse a connection. */
    var channelWrappers: seq<WrapperId>
    /** The ring of wrappers of each service key. */
    var serviceChannelRings: map<ServiceKey, Ring<WrapperId>>
    /** Re-posted events, unregistrations, disconnects and closes, in order. */
    var effects: seq<Effect>
    /** The next wrapper identity to hand out. */
    var nextId: WrapperId

    ghost function Abs(): State
      reads this
    {
      State(wrappers, channelWrappers, serviceChannelRings, effects, nextId)
    }

    ghost predicate Valid()
      reads this
    {
      ValidState(Abs())
    }

    /** The pool as `init` leaves it: no wrapper, no ring. */
    constructor ()
      ensures Valid() && Abs() == Initial()
    {
      wrappers, channelWrappers, serviceChannelRings, effects, nextId := map[], [], map[], [], 0;
      InitialValid();
    }

    /** receive: only channel-change messages are acted on. */
    method Receive(msg: Message, connect: Option<Channel>)
      requires Valid()
      modifies this
      ensures Valid() && Abs() == ReceiveStep(old(Abs()), msg, connect)
    {
      if !msg.ChannelChanged? {
        return;
      }
      var event := msg.event;
      match event.kind
      case Create => HandleChannelCreate(event, connect);
      case Remove => HandleChannelRemove(event);
    }

    /** getWrapper: reuse the first registered wrapper connected to the event's
        address, or create one. */
    method GetWrapper(msg: ChannelChangedMessage, connect: Option<Channel>) returns (w: Option<WrapperId>)
      requires Valid()
      modifies this
      ensures Valid() && (w, Abs()) == AcquireWrapper(old(Abs()), msg, connect)
    {
      var i := 0;
      while i < |channelWrappers| && !CompareAddress(wrappers[channelWrappers[i]].channel.remoteAddress, msg.address)
        invariant i <= |channelWrappers|
        invariant forall j :: 0 <= j < i ==> !Matches(wrappers, msg.address, channelWrappers[j])
      {
        i := i + 1;
      }
      if i < |channelWrappers| {
        assert FirstMatch(wrappers, channelWrappers, msg.address) == Some(i);
        var id := channelWrappers[i];
        wrappers := Inc(wrappers, id);
        AcquireWrapperValid(old(Abs()), msg, connect);
        return Some(id);
      }
      w := CreateWrapper(msg, connect);
    }

    /** createWrapper: register a wrapper for a connected channel, or post the event
        again when the connect failed. */
    method CreateWrapper(msg: ChannelChangedMessage, connect: Option<Channel>) returns (w: Option<WrapperId>)
      requires Valid()
      modifies this
      ensures Valid() && (w, Abs()) == ConnectWrapper(old(Abs()), msg, connect)
    {
      match connect
      case Some(channel) =>
        var id := nextId;
        nextId := nextId + 1;
        wrappers := wrappers[id := Wrapper(channel, msg.provider, 0, false)];
        wrappers := Inc(wrappers, id);
        channelWrappers := channelWrappers + [id];
        w := Some(id);
        ConnectWrapperValid(old(Abs()), msg, connect);
      case None =>
        effects := effects + [Repost(msg)];
        w := None;
    }

    /** handleChannelCreate. */
    method HandleChannelCreate(msg: ChannelChangedMessage, connect: Option<Channel>)
      requires Valid()
      modifies this
      ensures Valid() && Abs() == CreateStep(old(Abs()), msg, connect)
    {
      if msg.kind != Create {
        return;
      }
      var w := GetWrapper(msg, connect);
      if w.None? {
        return;
      }
      ghost var acquired := Abs();
      var key := msg.key;
      var ring: Ring<WrapperId>;
      if key in serviceChannelRings {
        ring := serviceChannelRings[key];
      } else {
        ring := Empty();
        serviceChannelRings := serviceChannelRings[key := ring];
      }
      serviceChannelRings := serviceChannelRings[key := Insert(ring, w.value)];
      assert serviceChannelRings == InsertInto(acquired.serviceChannelRings, key, w.value);
      assert Abs() == acquired.(serviceChannelRings := InsertInto(acquired.serviceChannelRings, key, w.value));
      CreateStepValid(old(Abs()), msg, connect);
    }

    /** handleChannelRemove: walk the key's ring and, for each wrapper connected to
        the event's address, remove it from the ring and the registry, unregister its
        channel and drop one reference. */
    method HandleChannelRemove(msg: ChannelChangedMessage)
      requires Valid()
      modifies this
      ensures Valid() && Abs() == RemoveStep(old(Abs()), msg)
    {
      if msg.kind != Remove || msg.key !in serviceChannelRings {
        return;
      }
      ghost var s0 := Abs();
      Unlink(msg.key, msg.address);
      RemoveStepValid(s0, msg);
    }

    /** The loop of handleChannelRemove: one walk of the ring of `key` that removes
        every wrapper connected to `addr` from the ring and from the registry,
        unregisters its channel and drops one of its references. */
    method Unlink(key: ServiceKey, addr: Option<SocketAddress>)
      requires key in serviceChannelRings
      requires forall x :: x in serviceChannelRings[key].elems ==> x in wrappers
      modifies this
      ensures var ring := old(serviceChannelRings)[key];
        && serviceChannelRings == old(serviceChannelRings)[key := RemoveWhere(ring, AddressMatcher(old(wrappers), addr), 0)]
        && channelWrappers == Reject(old(channelWrappers), InSet(Dropped(old(wrappers), ring.elems, addr)))
        && wrappers == Released(old(wrappers), ring.elems, addr)
        && effects == old(effects) + UnregisterLog(old(wrappers), ring.elems, addr)
        && nextId == old(nextId)
    {
      var ring := serviceChannelRings[key];
      UnlinkWalkIsRemove(ring, wrappers, channelWrappers, effects, addr);
      var pos := 0;
      while pos < |ring.elems|
        invariant pos <= |ring.elems|
        invariant forall x :: x in ring.elems ==> x in wrappers
        invariant UnlinkWalk(ring, pos, channelWrappers, wrappers, effects, addr)
               == UnlinkWalk(old(serviceChannelRings)[key], 0, old(channelWrappers), old(wrappers), old(effects), addr)
        invariant unchanged(`serviceChannelRings) && unchanged(`nextId)
        decreases |ring.elems| - pos
      {
        var w := ring.elems[pos];
        var channel := wrappers[w].channel;
        if CompareAddress(channel.remoteAddress, addr) {
          ring := RemoveAt(ring, pos);
          channelWrappers := Reject(channelWrappers, Same(w));
          effects := effects + [Unregister(channel.id)];
          wrappers := Dec(wrappers, w);
        } else {
          pos := pos + 1;
        }
      }
      serviceChannelRings := serviceChannelRings[key := ring];
    }

    /** ring(Protocol, RmiRequest): the next wrapper of the key's ring in round-robin
        order; a maybe-down pick is evicted and closed, and the last healthy wrapper
        met in a full walk of the ring is returned instead. */
    method Select(key: ServiceKey) returns (w: Option<WrapperId>)
      requires Valid()
      modifies this
      ensures Valid() && (w, Abs()) == SelectStep(old(Abs()), key)
    {
      if key !in serviceChannelRings {
        return None;
      }
      var ring := serviceChannelRings[key];
      if IsEmpty(ring) {
        return None;
      }
      ghost var s0 := Abs();
      SelectStepValid(s0, key);
      var picked := Current(ring);
      ring := Advance(ring);
      serviceChannelRings := serviceChannelRings[key := ring];
      if !wrappers[picked].maybeDown {
        assert Healthy(s0.wrappers, picked);
        return Some(picked);
      }
      w := Evict(key, picked);
      assert !Healthy(s0.wrappers, picked);
      assert w == SelectStep(s0, key).0;
      assert Abs() == SelectStep(s0, key).1;
    }

    /** The suspect branch of ring(Protocol, RmiRequest): one walk of the key's ring
        that removes every occurrence of `picked`, disconnecting and closing its
        channel each time, and remembers the last healthy wrapper it passed. */
    method Evict(key: ServiceKey, picked: WrapperId) returns (another: Option<WrapperId>)
      requires key in serviceChannelRings && picked in wrappers
      requires forall x :: x in serviceChannelRings[key].elems ==> x in wrappers
      modifies this
      ensures another == LastHealthy(old(wrappers), old(serviceChannelRings)[key].elems)
      ensures serviceChannelRings == old(serviceChannelRings)[key := RemoveWhere(old(serviceChannelRings)[key], Same(picked), 0)]
      ensures effects == old(effects) + EvictionLog(old(wrappers)[picked].channel.id, old(serviceChannelRings)[key].elems, picked)
      ensures wrappers == old(wrappers) && channelWrappers == old(channelWrappers) && nextId == old(nextId)
    {
      var ring := serviceChannelRings[key];
      var channel := wrappers[picked].channel.id;
      EvictWalkIsEviction(ring, wrappers, picked, channel, effects);
      another := None;
      var pos := 0;
      while pos < |ring.elems|
        invariant pos <= |ring.elems|
        invariant forall x :: x in ring.elems ==> x in wrappers
        invariant EvictWalk(ring, pos, wrappers, picked, channel, another, effects)
               == EvictWalk(old(serviceChannelRings)[key], 0, wrappers, picked, channel, None, old(effects))
        invariant unchanged(`wrappers) && unchanged(`channelWrappers) && unchanged(`nextId) && unchanged(`serviceChannelRings)
        decreases |ring.elems| - pos
      {
        var x := ring.elems[pos];
        if !wrappers[x].maybeDown {
          another := Some(x);
        }
        if x == picked {
          ring := RemoveAt(ring, pos);
          effects := effects + [Disconnect(channel), Close(channel)];
        } else {
          pos := pos + 1;
        }
      }
      serviceChannelRings := serviceChannelRings[key := ring];
    }
  }

}
