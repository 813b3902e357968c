# ChannelRingSupport, modelled in Dafny

ChannelRingSupport is the client-side connection manager of the excavator RPC
framework. It keeps a pool of channels to service providers, and a round-robin
ring of connection wrappers for each service key. It reacts to membership
events, and it picks a channel for each outgoing request.

- A CREATE event reuses the registered wrapper whose channel already reaches the
  event's address, and adds one reference to it. When no wrapper reaches that
  address, the manager connects, registers a new wrapper with one reference, and
  appends it to the key's ring. A failed connect re-posts the event instead.
- A REMOVE event walks the key's ring. Every wrapper connected to the event's
  address is removed from the ring and from the registry, its channel is
  unregistered from the response receiver, and it loses one reference, once per
  occurrence in the ring.
- `ring(Protocol, RmiRequest)` returns the wrapper under the ring's cursor and
  advances the cursor. If that wrapper is flagged maybe-down, one walk of the ring
  removes it (disconnecting and closing its channel), and the last healthy wrapper
  met on the way is returned instead, or null.

The project has seven modules, one of which holds a class:

- `Options` holds the optional value that stands for Java's null.
- `Addresses` holds the socket address and `compareAddress`.
- `Seqs` holds order-preserving removal from a sequence.
- `Rings` holds the ring as a value: its elements and its cursor.
- `ChannelRingModel` is the manager's bookkeeping as a pure state machine. Its
  state holds the wrappers by identity, the insertion-ordered registry
  `channelWrappers`, the ring table `serviceChannelRings`, and a log of the
  effects on the outside world. Those effects are re-posted events,
  `receiver.unRegister` calls, and channel `disconnect` and `close` calls.
  The two loops also have step-by-step forms (`UnlinkWalk`, `EvictWalk`).
- `ChannelRingProperties` holds what the handlers guarantee.
- `ConsumerSupport.ChannelRingSupport` is a class with the manager's fields. Its
  methods update them in place with the source's loops. Each method is proved to
  make exactly the transition of the state machine and to keep the state
  invariant. The invariant has four parts: ids name wrappers, fresh ids are
  unused, the registry is a set, and every ring holds only known wrappers.

Points where the code behaves differently from what one might expect:

- A REMOVE does not close the channel. It only unregisters it and decrements
  the reference count (lines 265-270).
- Suspect eviction does not take the wrapper out of the registry, and does not
  decrement its reference count (lines 350-353).
- Eviction removes every occurrence of the picked wrapper from the ring, not
  exactly one. The loop tests identity on every element (line 350).
- A REMOVE drops a wrapper from the registry whatever its reference count is
  (line 267). The model keeps this and states it in
  `ChannelRingProperties.RemoveReleasesMatches`.

## Model

| member | source | states |
|---|---|---|
| Addresses.CompareAddress | src/main/java/com/googlecode/excavator/consumer/support/ChannelRingSupport.java:282-288 | two addresses compare equal exactly when both are non-null and agree on host-name string and port; a null on either side never compares equal |
| Addresses.CompareAddressSymmetricTransitive | src/main/java/com/googlecode/excavator/consumer/support/ChannelRingSupport.java:282-288 | the comparison is symmetric and transitive |
| ConsumerSupport.ChannelRingSupport.constructor | src/main/java/com/googlecode/excavator/consumer/support/ChannelRingSupport.java:118-122 | a new manager has no wrapper, an empty registry (the field initializer at line 169), no ring (`init` creates an empty ring table) and no effects, and satisfies the state invariant |
| ConsumerSupport.ChannelRingSupport.Receive | src/main/java/com/googlecode/excavator/consumer/support/ChannelRingSupport.java:151-167 | the fields change exactly as ReceiveStep says: other messages are ignored, CREATE goes to the create handler and REMOVE to the remove handler; the invariant is kept |
| ConsumerSupport.ChannelRingSupport.GetWrapper | src/main/java/com/googlecode/excavator/consumer/support/ChannelRingSupport.java:177-191 | the search loop finds the first registered wrapper whose channel reaches the address and increments it, else falls back to creating one; the result and new fields equal AcquireWrapper of the old state |
| ConsumerSupport.ChannelRingSupport.CreateWrapper | src/main/java/com/googlecode/excavator/consumer/support/ChannelRingSupport.java:199-214 | on a connected channel, a fresh wrapper with one reference is registered at the end of the registry and returned; on a failed connect, the event is re-posted and null returned; the invariant is kept |
| ConsumerSupport.ChannelRingSupport.HandleChannelCreate | src/main/java/com/googlecode/excavator/consumer/support/ChannelRingSupport.java:221-244 | the fields change exactly as CreateStep says: the acquired wrapper is appended to the key's ring, which is created if missing |
| ConsumerSupport.ChannelRingSupport.HandleChannelRemove | src/main/java/com/googlecode/excavator/consumer/support/ChannelRingSupport.java:251-273 | the fields change exactly as RemoveStep says; a non-REMOVE event or a key without a ring changes nothing |
| ConsumerSupport.ChannelRingSupport.Unlink | src/main/java/com/googlecode/excavator/consumer/support/ChannelRingSupport.java:261-271 | the iterator loop leaves the ring without the wrappers connected to the address, removes those wrappers from the registry, decrements each once per occurrence and logs one unRegister per occurrence |
| ConsumerSupport.ChannelRingSupport.Select | src/main/java/com/googlecode/excavator/consumer/support/ChannelRingSupport.java:314-367 | the returned wrapper (or null) and the new fields equal SelectStep of the old state; the invariant is kept |
| ConsumerSupport.ChannelRingSupport.Evict | src/main/java/com/googlecode/excavator/consumer/support/ChannelRingSupport.java:341-363 | the eviction loop removes every occurrence of the picked wrapper, logs a disconnect and a close of its channel for each, returns the last healthy wrapper met, and changes no other field |
| ChannelRingModel.FirstMatch | src/main/java/com/googlecode/excavator/consumer/support/ChannelRingSupport.java:178-185 | the index found holds a wrapper whose channel reaches the address, no earlier entry does, and there is no result exactly when no entry does |
| ChannelRingModel.Released | src/main/java/com/googlecode/excavator/consumer/support/ChannelRingSupport.java:269 | decrementing the removed wrappers keeps the set of wrappers, their channels and their maybe-down flags |
| ChannelRingModel.LastHealthy | src/main/java/com/googlecode/excavator/consumer/support/ChannelRingSupport.java:343-349 | the fallback is null exactly when no wrapper of the walk is healthy; otherwise it is a healthy wrapper of the ring |
| ChannelRingProperties.InitialValid | src/main/java/com/googlecode/excavator/consumer/support/ChannelRingSupport.java:122 | the empty manager satisfies the state invariant |
| ChannelRingProperties.ConnectWrapperValid | src/main/java/com/googlecode/excavator/consumer/support/ChannelRingSupport.java:199-214 | creating a wrapper keeps the invariant, so the registry stays a set, and the returned wrapper exists |
| ChannelRingProperties.AcquireWrapperValid | src/main/java/com/googlecode/excavator/consumer/support/ChannelRingSupport.java:177-191 | acquiring a wrapper keeps the invariant and returns an existing wrapper |
| ChannelRingProperties.CreateStepValid | src/main/java/com/googlecode/excavator/consumer/support/ChannelRingSupport.java:221-244 | a CREATE keeps the invariant |
| ChannelRingProperties.RemoveStepValid | src/main/java/com/googlecode/excavator/consumer/support/ChannelRingSupport.java:251-273 | a REMOVE keeps the invariant: the registry stays a set and rings hold only known wrappers |
| ChannelRingProperties.SelectStepValid | src/main/java/com/googlecode/excavator/consumer/support/ChannelRingSupport.java:314-367 | selection, with or without eviction, keeps the invariant |
| ChannelRingProperties.ReceiveStepValid | src/main/java/com/googlecode/excavator/consumer/support/ChannelRingSupport.java:151-167 | every message keeps the invariant |
| ChannelRingProperties.CreateReusesFirstMatch | src/main/java/com/googlecode/excavator/consumer/support/ChannelRingSupport.java:178-184 | a CREATE for an address that a registered wrapper already reaches returns the first such wrapper in registry order and gives it one more reference; no other wrapper, the registry, the effects and the id counter change; the connect outcome does not matter |
| ChannelRingProperties.CreateConnectsUnseen | src/main/java/com/googlecode/excavator/consumer/support/ChannelRingSupport.java:199-207 | a CREATE for an unseen address whose connect succeeds adds exactly one fresh wrapper with the new channel and one reference, at the end of the registry, and posts nothing |
| ChannelRingProperties.CreateRepostsOnConnectFailure | src/main/java/com/googlecode/excavator/consumer/support/ChannelRingSupport.java:208-213 | a CREATE for an unseen address whose connect fails re-posts the same event once and changes nothing else |
| ChannelRingProperties.CreateAppendsToRing | src/main/java/com/googlecode/excavator/consumer/support/ChannelRingSupport.java:234-242 | a successful CREATE appends the wrapper to the end of its key's ring, creating the ring when missing; every other ring is unchanged and the wrapper is registered |
| ChannelRingProperties.IgnoredEvents | src/main/java/com/googlecode/excavator/consumer/support/ChannelRingSupport.java:151-167 | a non-channel message changes nothing; each handler ignores the other event type; a REMOVE for a key without a ring changes nothing |
| ChannelRingProperties.UnlinkWalkIsRemove | src/main/java/com/googlecode/excavator/consumer/support/ChannelRingSupport.java:261-271 | the element-by-element remove loop ends in RemoveStep's closed form: ring filtered in order, registry without the dropped wrappers, one decrement and one unRegister per matching occurrence |
| ChannelRingProperties.UnregisterLogCount | src/main/java/com/googlecode/excavator/consumer/support/ChannelRingSupport.java:261-271 | the REMOVE effects are only unRegisters, and their number plus the number of kept ring entries is the ring's length |
| ChannelRingProperties.UnregisterLogCovers | src/main/java/com/googlecode/excavator/consumer/support/ChannelRingSupport.java:268 | every matching wrapper of the ring has its channel unregistered |
| ChannelRingProperties.RemoveClearsAddressFromRing | src/main/java/com/googlecode/excavator/consumer/support/ChannelRingSupport.java:261-271 | after a REMOVE the key's ring holds no wrapper connected to the address, and every other ring is unchanged |
| ChannelRingProperties.RemoveKeepsOthersInRing | src/main/java/com/googlecode/excavator/consumer/support/ChannelRingSupport.java:261-271 | a REMOVE keeps every other wrapper of the ring, with all of its occurrences and in the same relative order |
| ChannelRingProperties.RemoveReleasesMatches | src/main/java/com/googlecode/excavator/consumer/support/ChannelRingSupport.java:265-270 | each removed wrapper leaves the registry whatever its reference count, is unregistered and loses one reference per occurrence; other wrappers keep their registry entry, in order, and their state; earlier effects are kept |
| ChannelRingProperties.SelectWithoutProvider | src/main/java/com/googlecode/excavator/consumer/support/ChannelRingSupport.java:319-329 | without a ring for the key, or with an empty one, selection returns null and changes nothing |
| ChannelRingProperties.SelectHealthyPick | src/main/java/com/googlecode/excavator/consumer/support/ChannelRingSupport.java:333-341 | a healthy wrapper under the cursor is returned as is; the cursor advances and nothing else changes |
| ChannelRingProperties.EvictionLogShape | src/main/java/com/googlecode/excavator/consumer/support/ChannelRingSupport.java:350-353 | the eviction log alternates disconnect and close of the channel, two entries per occurrence of the suspect |
| ChannelRingProperties.LastHealthyIsLast | src/main/java/com/googlecode/excavator/consumer/support/ChannelRingSupport.java:345-349 | the fallback is the element at the last healthy position of the walk, not the nearest one |
| ChannelRingProperties.SelectEvictsSuspect | src/main/java/com/googlecode/excavator/consumer/support/ChannelRingSupport.java:344-361 | a maybe-down pick leaves the ring in every occurrence; every other wrapper keeps all of its occurrences, in order |
| ChannelRingProperties.SelectReturnsLastHealthy | src/main/java/com/googlecode/excavator/consumer/support/ChannelRingSupport.java:341-363 | after a maybe-down pick the result is the last healthy wrapper of the ring, null exactly when all are maybe-down; a returned wrapper is healthy and still in the ring |
| ChannelRingProperties.SelectEvictionEffects | src/main/java/com/googlecode/excavator/consumer/support/ChannelRingSupport.java:350-353 | eviction appends one disconnect and one close of the suspect's channel per occurrence, and leaves the wrappers, the registry and the other rings alone |
| ChannelRingProperties.EvictWalkIsEviction | src/main/java/com/googlecode/excavator/consumer/support/ChannelRingSupport.java:343-361 | the element-by-element eviction loop ends in SelectStep's closed form: ring without the suspect, last healthy wrapper, eviction log |
| ChannelRingProperties.CreatesReuseOnlyWrapper | src/main/java/com/googlecode/excavator/consumer/support/ChannelRingSupport.java:177-184 | once a single wrapper serves an address, any further CREATEs for it, under any keys, keep it the only one and add one reference each |
| ChannelRingProperties.FirstCreateServes | src/main/java/com/googlecode/excavator/consumer/support/ChannelRingSupport.java:199-207 | the first successful CREATE for an address makes the new wrapper the only one serving it, with one reference |
| ChannelRingProperties.CreatesShareOneWrapper | src/main/java/com/googlecode/excavator/consumer/support/ChannelRingSupport.java:177-214 | n CREATEs for one address leave exactly one registered wrapper for it, with reference count n |
| ChannelRingProperties.TwoKeysShareOneConnection | src/main/java/com/googlecode/excavator/consumer/support/ChannelRingSupport.java:221-242 | CREATE for one address under two keys yields one wrapper with two references, present in both keys' rings |
| ChannelRingProperties.FailedConnectLeavesNoProvider | src/main/java/com/googlecode/excavator/consumer/support/ChannelRingSupport.java:208-213 | after a failed connect the event is re-posted and selection for the key returns null |
| ChannelRingProperties.SuspectInTheMiddle | src/main/java/com/googlecode/excavator/consumer/support/ChannelRingSupport.java:341-365 | ring [A, B, C] with the cursor on a maybe-down B returns C, closes B's channel and leaves [A, C] |
| Rings.RemoveWhereFromStart | src/main/java/com/googlecode/excavator/consumer/support/ChannelRingSupport.java:261-271 | removing through the iterator during one walk keeps exactly the unselected elements, in order |
| Rings.RemovedNeverServed | src/main/java/com/googlecode/excavator/consumer/support/ChannelRingSupport.java:344-361 | after such a walk, no number of later `ring()` calls yields a removed element |
| Rings.EveryElementOncePerRound | src/main/java/com/googlecode/excavator/consumer/support/ChannelRingSupport.java:334 | without changes in between, as many `ring()` calls as the ring has elements yield every element as often as it occurs |
| Seqs.RejectNoDuplicates | src/main/java/com/googlecode/excavator/consumer/support/ChannelRingSupport.java:169 | removing wrappers from the registry keeps it free of duplicates, as a set |
| Seqs.RejectIsSubsequence | src/main/java/com/googlecode/excavator/consumer/support/ChannelRingSupport.java:267 | removing from the insertion-ordered registry keeps the order of what stays |

## Left out

- `init`, `destroy`, the Netty bootstrap, the pipeline factory and `businessHandler` (lines 79-148) are I/O and transport setup. The response path belongs to the receiver.
- `createChannel` (lines 296-311) becomes a parameter: the outcome of the connect, either a channel with the remote address it reports or none. Adding the channel to `channelGroup` is not modelled.
- `messager.post`, `receiver.unRegister`, `disconnect` and `close` are not executed. They are recorded, in order, in the effect log.
- Concurrency is not modelled. The handlers are `synchronized` but `ring(...)` is not, and the ring table is a concurrent map. Every operation runs atomically here.
- The `NoSuchElementException` catch (lines 333-338) is not modelled. It can only fire when another thread empties the ring after the emptiness check.
- com.googlecode.excavator.Ring is not part of this model. Its contract is assumed: insert appends; `ring()` yields the element under the cursor and moves it one step, wrapping around; the iterator walks from the first element, and its remove deletes the element just returned.
- ChannelRing.Wrapper is not part of this model. `inc` and `dec` are assumed to add and subtract one. A new wrapper is assumed to start with no references and not maybe-down. Setting maybe-down happens outside the core and is read only.
- Wrappers are compared by identity. The model gives each wrapper an id, and an id stands for the object reference.
- Host names are compared as literal strings. `getHostName` may do a reverse DNS lookup, and that is not modelled.
- ChannelRingModel.Inc: the reference count is an unbounded integer, so Java `int` wrap-around after 2^31 increments is not modelled.
- ChannelRingModel.Dec: the reference count may go below zero, as in the source. Java `int` wrap-around is not modelled.
- Logging and the commented-out reconnect after eviction (lines 355-359) are left out.
- The service key is an opaque string; how it is built from group, version and signature is not modelled.
