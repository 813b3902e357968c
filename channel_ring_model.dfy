/** The bookkeeping of ChannelRingSupport as a pure state machine. A `State` holds the
    wrapper objects (by id), the insertion-ordered registry `channelWrappers`, the
    table `serviceChannelRings` from service key to ring, and a log of the effects the
    manager has on the outside world (re-posted events, `receiver.unRegister`,
    `disconnect` and `close` of channels). Each handler is a function from the old
    state to the new one; the class in ConsumerSupport is proved to implement them. */
module ChannelRingModel {

  import opened Options
  import opened Addresses
  import opened Seqs
  import opened Rings

  /** Wrappers are shared objects compared by identity; an id into `wrappers` stands
      for the object reference. */
  type WrapperId = nat
  type ChannelId = nat
  /** group + version + sign of a service. */
  type ServiceKey = string
  /** The provider descriptor carried by an event, kept only as data. */
  type Provider = string

  /** A connected transport channel and the remote address it reports. */
  datatype Channel = Channel(id: ChannelId, remoteAddress: Option<SocketAddress>)

  /** ChannelRing.Wrapper: the channel, its provider, a reference count and the
      maybe-down flag that the request path sets. */
  datatype Wrapper = Wrapper(channel: Channel, provider: Provider, refCount: int, maybeDown: bool)

  datatype ChangeType = Create | Remove

  /** ChannelChangedMessage: its type, the key of its service, the provider address
      and the provider. */
  datatype ChannelChangedMessage =
    ChannelChangedMessage(kind: ChangeType, key: ServiceKey, address: Option<SocketAddress>, provider: Provider)

  /** What the message bus may deliver: a channel change, or any other message. */
  datatype Message = ChannelChanged(event: ChannelChangedMessage) | OtherMessage

  /** Out-of-band effects, in the order the manager causes them. */
  datatype Effect =
    | Repost(event: ChannelChangedMessage)
    | Unregister(channel: ChannelId)
    | Disconnect(channel: ChannelId)
    | Close(channel: ChannelId)

  datatype State = State(
    wrappers: map<WrapperId, Wrapper>,
    channelWrappers: seq<WrapperId>,
    serviceChannelRings: map<ServiceKey, Ring<WrapperId>>,
    effects: seq<Effect>,
    nextId: WrapperId)

  function Initial(): State
  {
    State(map[], [], map[], [], 0)
  }

  /** Every id in use names a wrapper, ids not yet handed out are fresh, and the
      registry is a set. */
  ghost predicate ValidState(s: State)
  {
    && (forall id :: id in s.wrappers ==> id < s.nextId)
    && (forall id :: id in s.channelWrappers ==> id in s.wrappers)
    && NoDuplicates(s.channelWrappers)
    && (forall key, id :: key in s.serviceChannelRings && id in s.serviceChannelRings[key].elems ==> id in s.wrappers)
  }

  // ---------------------------------------------------------------------------
  // Wrappers and addresses

  /** The wrapper `id` exists and its channel's remote address is `addr`. */
  predicate Matches(wrappers: map<WrapperId, Wrapper>, addr: Option<SocketAddress>, id: WrapperId)
  {
    id in wrappers && CompareAddress(wrappers[id].channel.remoteAddress, addr)
  }

  function AddressMatcher(wrappers: map<WrapperId, Wrapper>, addr: Option<SocketAddress>): WrapperId -> bool
  {
    (id: WrapperId) => Matches(wrappers, addr, id)
  }

  /** The wrapper exists and is not flagged maybe-down. */
  predicate Healthy(wrappers: map<WrapperId, Wrapper>, id: WrapperId)
  {
    id in wrappers && !wrappers[id].maybeDown
  }

  /** `wrapper.inc()`. */
  function Inc(wrappers: map<WrapperId, Wrapper>, id: WrapperId): map<WrapperId, Wrapper>
    requires id in wrappers
  {
    wrappers[id := wrappers[id].(refCount := wrappers[id].refCount + 1)]
  }

  /** `wrapper.dec()`. */
  function Dec(wrappers: map<WrapperId, Wrapper>, id: WrapperId): map<WrapperId, Wrapper>
    requires id in wrappers
  {
    wrappers[id := wrappers[id].(refCount := wrappers[id].refCount - 1)]
  }

  /** The index of the first registry entry whose channel is connected to `addr`. */
  function FirstMatch(wrappers: map<WrapperId, Wrapper>, reg: seq<WrapperId>, addr: Option<SocketAddress>): (r: Option<nat>)
    ensures r.Some? ==> r.value < |reg| && Matches(wrappers, addr, reg[r.value])
    ensures r.Some? ==> forall j :: 0 <= j < r.value ==> !Matches(wrappers, addr, reg[j])
    ensures r.None? <==> forall j :: 0 <= j < |reg| ==> !Matches(wrappers, addr, reg[j])
  {
    if reg == [] then None
    else if Matches(wrappers, addr, reg[0]) then Some(0)
    else match FirstMatch(wrappers, reg[1..], addr)
      case None => None
      case Some(i) => Some(i + 1)
  }

  // ---------------------------------------------------------------------------
  // CREATE

  /** createWrapper: with a connected channel, a new wrapper with one reference is
      registered; when the connect failed, the same event is posted again. */
  function ConnectWrapper(s: State, msg: ChannelChangedMessage, connect: Option<Channel>): (Option<WrapperId>, State)
  {
    match connect
    case Some(channel) =>
      var id := s.nextId;
      var wrappers := Inc(s.wrappers[id := Wrapper(channel, msg.provider, 0, false)], id);
      (Some(id), s.(wrappers := wrappers, channelWrappers := s.channelWrappers + [id], nextId := id + 1))
    case None =>
      (None, s.(effects := s.effects + [Repost(msg)]))
  }

  /** getWrapper: the first registered wrapper for the event's address gains a
      reference; without one, a wrapper is created. */
  function AcquireWrapper(s: State, msg: ChannelChangedMessage, connect: Option<Channel>): (Option<WrapperId>, State)
  {
    match FirstMatch(s.wrappers, s.channelWrappers, msg.address)
    case Some(i) =>
      var id := s.channelWrappers[i];
      (Some(id), s.(wrappers := Inc(s.wrappers, id)))
    case None =>
      ConnectWrapper(s, msg, connect)
  }

  /** The ring of `key` with `id` appended, the ring being created when missing. */
  function InsertInto(rings: map<ServiceKey, Ring<WrapperId>>, key: ServiceKey, id: WrapperId): map<ServiceKey, Ring<WrapperId>>
  {
    rings[key := Insert(if key in rings then rings[key] else Empty(), id)]
  }

  /** handleChannelCreate. */
  function CreateStep(s: State, msg: ChannelChangedMessage, connect: Option<Channel>): State
  {
    if msg.kind != Create then s
    else
      var (w, s') := AcquireWrapper(s, msg, connect);
      if w.None? then s'
      else s'.(serviceChannelRings := InsertInto(s'.serviceChannelRings, msg.key, w.value))
  }

  // ---------------------------------------------------------------------------
  // REMOVE

  /** The wrappers among `elems` that are connected to `addr`. */
  function Dropped(wrappers: map<WrapperId, Wrapper>, elems: seq<WrapperId>, addr: Option<SocketAddress>): set<WrapperId>
  {
    set id | id in elems && Matches(wrappers, addr, id)
  }

  /** Each occurrence in `elems` of a wrapper connected to `addr` costs it one reference. */
  function Released(wrappers: map<WrapperId, Wrapper>, elems: seq<WrapperId>, addr: Option<SocketAddress>): (r: map<WrapperId, Wrapper>)
    ensures r.Keys == wrappers.Keys
    ensures forall id :: id in r ==> r[id].channel == wrappers[id].channel && r[id].maybeDown == wrappers[id].maybeDown
  {
    map id | id in wrappers ::
      if Matches(wrappers, addr, id) then wrappers[id].(refCount := wrappers[id].refCount - multiset(elems)[id])
      else wrappers[id]
  }

  /** One `receiver.unRegister` per occurrence in `elems` of a wrapper connected to `addr`. */
  function UnregisterLog(wrappers: map<WrapperId, Wrapper>, elems: seq<WrapperId>, addr: Option<SocketAddress>): seq<Effect>
  {
    if elems == [] then []
    else
      var last := elems[|elems| - 1];
      UnregisterLog(wrappers, elems[..|elems| - 1], addr)
        + (if Matches(wrappers, addr, last) then [Unregister(wrappers[last].channel.id)] else [])
  }

  /** The loop of handleChannelRemove from index `pos` of `ring` on, one element at a
      time: a wrapper connected to `addr` is removed from the ring and the registry, its
      channel is unregistered and it loses one reference. Yields the ring, the registry,
      the wrappers and the effect log after the walk. */
  function UnlinkWalk(ring: Ring<WrapperId>, pos: nat, registry: seq<WrapperId>, wrappers: map<WrapperId, Wrapper>,
                      effects: seq<Effect>, addr: Option<SocketAddress>)
    : (Ring<WrapperId>, seq<WrapperId>, map<WrapperId, Wrapper>, seq<Effect>)
    requires pos <= |ring.elems|
    decreases |ring.elems| - pos
  {
    if pos == |ring.elems| then (ring, registry, wrappers, effects)
    else
      var w := ring.elems[pos];
      if Matches(wrappers, addr, w) then
        UnlinkWalk(RemoveAt(ring, pos), pos, Reject(registry, Same(w)), Dec(wrappers, w),
                   effects + [Unregister(wrappers[w].channel.id)], addr)
      else
        UnlinkWalk(ring, pos + 1, registry, wrappers, effects, addr)
  }

  /** handleChannelRemove. */
  function RemoveStep(s: State, msg: ChannelChangedMessage): State
  {
    if msg.kind != Remove || msg.key !in s.serviceChannelRings then s
    else
      var ring := s.serviceChannelRings[msg.key];
      s.(serviceChannelRings := s.serviceChannelRings[msg.key := RemoveWhere(ring, AddressMatcher(s.wrappers, msg.address), 0)],
         channelWrappers := Reject(s.channelWrappers, InSet(Dropped(s.wrappers, ring.elems, msg.address))),
         wrappers := Released(s.wrappers, ring.elems, msg.address),
         effects := s.effects + UnregisterLog(s.wrappers, ring.elems, msg.address))
  }

  // ---------------------------------------------------------------------------
  // Selection

  /** The last healthy wrapper of `elems`, if any. */
  function LastHealthy(wrappers: map<WrapperId, Wrapper>, elems: seq<WrapperId>): (r: Option<WrapperId>)
    ensures r.None? <==> forall i :: 0 <= i < |elems| ==> !Healthy(wrappers, elems[i])
    ensures r.Some? ==> r.value in elems && Healthy(wrappers, r.value)
  {
    if elems == [] then None
    else
      var n := |elems| - 1;
      if Healthy(wrappers, elems[n]) then Some(elems[n]) else LastHealthy(wrappers, elems[..n])
  }

  /** A disconnect and a close of `channel` per occurrence of `w` in `elems`. */
  function EvictionLog(channel: ChannelId, elems: seq<WrapperId>, w: WrapperId): seq<Effect>
  {
    if elems == [] then []
    else
      EvictionLog(channel, elems[..|elems| - 1], w)
        + (if elems[|elems| - 1] == w then [Disconnect(channel), Close(channel)] else [])
  }

  /** The eviction loop of ring(Protocol, RmiRequest) from index `pos` of `ring` on:
      every occurrence of `suspect` is removed and costs a disconnect and a close of
      `channel`, and the last healthy wrapper passed is remembered. Yields the ring,
      the remembered wrapper and the effect log after the walk. */
  function EvictWalk(ring: Ring<WrapperId>, pos: nat, wrappers: map<WrapperId, Wrapper>, suspect: WrapperId,
                     channel: ChannelId, another: Option<WrapperId>, effects: seq<Effect>)
    : (Ring<WrapperId>, Option<WrapperId>, seq<Effect>)
    requires pos <= |ring.elems|
    decreases |ring.elems| - pos
  {
    if pos == |ring.elems| then (ring, another, effects)
    else
      var x := ring.elems[pos];
      var another' := if Healthy(wrappers, x) then Some(x) else another;
      if x == suspect then
        EvictWalk(RemoveAt(ring, pos), pos, wrappers, suspect, channel, another', effects + [Disconnect(channel), Close(channel)])
      else
        EvictWalk(ring, pos + 1, wrappers, suspect, channel, another', effects)
  }

  /** ring(Protocol, RmiRequest): the wrapper chosen (None for null) and the new state. */
  function SelectStep(s: State, key: ServiceKey): (Option<WrapperId>, State)
    requires ValidState(s)
  {
    if key !in s.serviceChannelRings || IsEmpty(s.serviceChannelRings[key]) then (None, s)
    else
      var ring := s.serviceChannelRings[key];
      var w := Current(ring);
      var advanced := Advance(ring);
      if Healthy(s.wrappers, w) then
        (Some(w), s.(serviceChannelRings := s.serviceChannelRings[key := advanced]))
      else
        (LastHealthy(s.wrappers, advanced.elems),
         s.(serviceChannelRings := s.serviceChannelRings[key := RemoveWhere(advanced, Same(w), 0)],
            effects := s.effects + EvictionLog(s.wrappers[w].channel.id, advanced.elems, w)))
  }

  // ---------------------------------------------------------------------------
  // Dispatch

  /** receive: channel changes go to their handler, every other message is ignored. */
  function ReceiveStep(s: State, msg: Message, connect: Option<Channel>): State
  {
    match msg
    case OtherMessage => s
    case ChannelChanged(event) =>
      match event.kind
      case Create => CreateStep(s, event, connect)
      case Remove => RemoveStep(s, event)
  }

}
