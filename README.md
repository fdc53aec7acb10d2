# ym-msg: message manager and handlers, modelled in Dafny

This project models the diagnostic message facility of ym-msg. It has two parts:

- A manager (`MsgMgrImpl`) keeps an ordered list of registered handlers and five per-kind message counters (error, warning, info, failure, debug).
- Each handler (`MsgHandler`) has a bit mask of the kinds it accepts and a back-reference to the manager it is registered with.

`put_msg` on the manager counts the message under its kind. It then offers the message to every registered handler in registration order. A handler's `event_proc` passes the message on to its virtual `put_msg` when its mask has the kind's bit set.

Files and modules:

- `msg_type.dfy`, module `MsgTypes`: the five message kinds and the message record. It also holds the kind-to-bit conversion, the all-kinds mask, the accept test of `event_proc`, and the mask algebra of `add_mask` and `delete_mask` with its laws.
- `counters.dfy`, module `MsgCounters`: the five counters as a value (`Counters`). It defines what one more message does to them (`Bump`) and what a run of messages leaves after `clear_count` (`Tally`).
- `messaging.dfy`, module `Messaging`: the classes `Handler` and `Manager`, which update their fields in place. It also holds the two-way registration invariant `Coherent` and the specification of the fan-out (`Deliveries`) with its lemmas.
- `stream_format.dfy`, module `StreamFormat`: the line that `StreamMsgHandler::put_msg` writes.

How the model is built:

- A handler's virtual `put_msg` is modelled by one effect: it appends `Delivery(handler, message)` to a ghost `DeliveryLog`. The manager's `put_msg` is then specified by the exact sequence of deliveries it causes.
- The registration invariant is a ghost predicate over a set of managers `ms` and a set of handlers `hs`. A handler points to a manager exactly when it occurs in that manager's list, and then it occurs exactly once. The registration methods take `ms` and `hs` as ghost parameters, require the invariant and keep it.
- The source's `ASSERT_COND` checks are preconditions.

Divergence from the source: the `MsgHandler` constructor (c++-src/MsgHandler.cc:22-25) sets only `mMask`. `mMgr` has no initialiser (include/ym/MsgHandler.h:124), so a new handler's manager pointer is indeterminate. Yet `reg_handler` asserts that it is null (c++-src/MsgMgrImpl.cc:37). The model's constructors set `mgr := null` explicitly, which is the evident intent.

## Model

| member | source | states |
|---|---|---|
| MsgTypes.Conv2BitMask | c++-src/MsgHandler.cc:48 | each kind's mask is a single non-zero bit (an assumption: the definition of `conv2bitmask` is not part of this model) |
| MsgTypes.BitsDisjoint | c++-src/MsgHandler.cc:48-49 | two different kinds have disjoint bits (an assumption, as above) |
| MsgTypes.Only | c++-src/MsgHandler.cc:48-49 | the mask made of one kind's bit accepts that kind and no other |
| MsgTypes.MaskAllAcceptsEvery | include/ym/MsgHandler.h:33 | the default mask `kMsgMaskAll` accepts every kind |
| MsgTypes.Added | include/ym/MsgHandler.h:153-158 | `add_mask(t)` sets every bit of `t`'s mask and leaves every other bit unchanged |
| MsgTypes.Deleted | include/ym/MsgHandler.h:164-169 | `delete_mask(t)` clears every bit of `t`'s mask and leaves every other bit unchanged |
| MsgTypes.GateAfterAdd | include/ym/MsgHandler.h:153-158 | after `add_mask(t)` a kind is accepted iff it is `t` or was accepted before |
| MsgTypes.GateAfterDelete | include/ym/MsgHandler.h:164-169 | after `delete_mask(t)` a kind is accepted iff it is not `t` and was accepted before |
| MsgTypes.AddIdempotent | include/ym/MsgHandler.h:153-158 | `add_mask(t)` twice equals `add_mask(t)` once |
| MsgTypes.DeleteIdempotent | include/ym/MsgHandler.h:164-169 | `delete_mask(t)` twice equals `delete_mask(t)` once |
| MsgTypes.DeleteAfterAdd | include/ym/MsgHandler.h:153-169 | `delete_mask(t)` after `add_mask(t)` equals `delete_mask(t)` alone, so `t`'s bit ends clear |
| MsgTypes.AddAfterDelete | include/ym/MsgHandler.h:153-169 | `add_mask(t)` after `delete_mask(t)` equals `add_mask(t)` alone, so `t`'s bit ends set |
| MsgCounters.Counters.Total | c++-src/MsgMgrImpl.cc:103-107 | the total is the sum of the five per-kind counters |
| MsgCounters.Counters.Bump | c++-src/MsgMgrImpl.cc:77-84 | one message of kind `t` raises `t`'s counter by one, leaves the other four, and raises the total by one |
| MsgCounters.TallyCounts | c++-src/MsgMgrImpl.cc:77-100 | after `clear_count` and a run of `put_msg` calls, each counter equals the number of calls of its kind |
| MsgCounters.TallyTotal | c++-src/MsgMgrImpl.cc:77-107 | after `clear_count` and N `put_msg` calls, `msg_num` is N |
| Messaging.IndexOf | c++-src/MsgMgrImpl.cc:39-40 | the position that stands for the handler's `mIter`: an index holding the handler, with no earlier occurrence |
| Messaging.Erase | c++-src/MsgMgrImpl.cc:49 | erasing at that position removes exactly one occurrence of the handler and keeps the other entries in their order |
| Messaging.DeliveriesStep | c++-src/MsgMgrImpl.cc:86-88 | offering the message to one more listed handler adds that handler's delivery if its mask accepts the kind, and nothing otherwise |
| Messaging.DeliveriesSound | c++-src/MsgHandler.cc:48-51 | every delivery of the fan-out goes to a listed handler whose mask accepts the kind, and carries the message unchanged |
| Messaging.DeliveriesCount | c++-src/MsgMgrImpl.cc:86-88 | the fan-out reaches a handler once per listing if its mask accepts the kind, and never otherwise |
| Messaging.DeliveriesInOrder | c++-src/MsgMgrImpl.cc:86-88 | when every listed handler accepts the kind, the deliveries are the listed handlers in list order |
| Messaging.ListedIffRegistered | c++-src/MsgMgrImpl.cc:35-61 | under the invariant, a handler is in a manager's list iff its manager pointer is that manager |
| Messaging.RegisteredReceivesOnce | c++-src/MsgMgrImpl.cc:86-88 | under the invariant, `put_msg` reaches a handler exactly once if it is registered there and accepts the kind, and otherwise not at all |
| Messaging.CoherentEmpty | c++-src/MsgMgrImpl.cc:20-23 | no managers and no handlers satisfy the registration invariant |
| Messaging.CoherentAddHandler | c++-src/MsgHandler.cc:22-25 | a new unregistered handler that no list holds keeps the invariant |
| Messaging.CoherentAddManager | c++-src/MsgMgrImpl.cc:20-23 | a new manager with an empty list, which no handler points to, keeps the invariant |
| Messaging.Handler.constructor | c++-src/MsgHandler.cc:22-25 | the handler stores the given mask and starts unregistered |
| Messaging.Handler.Default | include/ym/MsgHandler.h:33 | without an argument the mask is `kMsgMaskAll` |
| Messaging.Handler.Mask | include/ym/MsgHandler.h:141-147 | `mask()` returns the stored mask and changes nothing |
| Messaging.Handler.SetMask | include/ym/MsgHandler.h:133-139 | afterwards `mask()` returns the value stored; only the mask field may change |
| Messaging.Handler.AddMask | include/ym/MsgHandler.h:153-158 | the new mask is `Added(old mask, t)`; the registration fields are outside its frame |
| Messaging.Handler.DeleteMask | include/ym/MsgHandler.h:164-169 | the new mask is `Deleted(old mask, t)`; the registration fields are outside its frame |
| Messaging.Handler.PutMsg | include/ym/MsgHandler.h:81-87 | the concrete handler receives the message: one delivery is appended to the log |
| Messaging.Handler.EventProc | c++-src/MsgHandler.cc:41-52 | calls `put_msg` with the message unchanged iff the mask accepts the kind, and otherwise does nothing; only the log may change |
| Messaging.Handler.Dispose | c++-src/MsgHandler.cc:28-33 | a registered handler's entry is erased from its manager's list, it points to no manager, no manager of the invariant lists it afterwards, that manager's counters are unchanged, and the invariant holds |
| Messaging.Manager.constructor | c++-src/MsgMgrImpl.cc:20-23 | a new manager has an empty list and all counters at zero |
| Messaging.Manager.RegHandler | c++-src/MsgMgrImpl.cc:35-41 | requires an unregistered handler; appends it as the new last entry, keeps the earlier entries, points it to this manager, and keeps the invariant |
| Messaging.Manager.UnregHandler | c++-src/MsgMgrImpl.cc:46-51 | requires the handler to point to this manager; erases its one entry keeping the others' order, leaves it pointing to no manager, and keeps the invariant |
| Messaging.Manager.Locate | c++-src/MsgMgrImpl.cc:40 | finds the position `reg_handler` stored as `mIter`, without changing anything |
| Messaging.Manager.UnregAllHandlers | c++-src/MsgMgrImpl.cc:55-61 | the list becomes empty, every handler it held points to no manager with its mask unchanged, and the invariant holds |
| Messaging.Manager.Teardown | c++-src/MsgMgrImpl.cc:27-30 | the destructor unregisters, and does not destroy, every listed handler |
| Messaging.Manager.CountMessage | c++-src/MsgMgrImpl.cc:77-84 | the counters become `Bump` of the old counters |
| Messaging.Manager.PutMsg | c++-src/MsgMgrImpl.cc:71-89 | counts the message under its kind, raises `msg_num` by one, and appends exactly the fan-out's deliveries to the log; the handler list is outside its frame |
| Messaging.Manager.Dispatch | c++-src/MsgMgrImpl.cc:86-88 | `event_proc` on every listed handler, first to last, appends exactly `Deliveries(handlers, msg)` |
| Messaging.Manager.ClearCount | c++-src/MsgMgrImpl.cc:93-100 | all five counters become zero (so `msg_num`, their total, is zero); the handler list is outside its frame |
| Messaging.Manager.MsgNum | c++-src/MsgMgrImpl.cc:103-107 | `msg_num` is the total of the counters and reads nothing else |
| Messaging.Manager.ErrorNum | c++-src/MsgMgrImpl.cc:110-114 | returns the error counter and reads nothing else |
| Messaging.Manager.WarningNum | c++-src/MsgMgrImpl.cc:117-121 | returns the warning counter and reads nothing else |
| Messaging.Manager.InfoNum | c++-src/MsgMgrImpl.cc:124-128 | returns the info counter and reads nothing else |
| Messaging.Manager.FailNum | c++-src/MsgMgrImpl.cc:131-135 | returns the failure counter and reads nothing else |
| Messaging.Manager.DebugNum | c++-src/MsgMgrImpl.cc:138-142 | returns the debug counter and reads nothing else |
| StreamFormat.StreamLine | c++-src/MsgHandler.cc:83 | the line is the text printed for the message's own kind, `" ["`, the label, `"]: "`, the body and a newline, each at its offset |
| StreamFormat.StreamLineIgnoresLocation | c++-src/MsgHandler.cc:77-84 | the source file and line are not printed: messages differing only there give the same line |

## Left out

- Stream output: `StreamMsgHandler` writing to an `ostream` is I/O. Only the line it writes is modelled (`StreamFormat.StreamLine`). How `operator<<` prints a `MsgType` is not shown, so the kind-to-text printing is a parameter, applied to the message's own kind.
- `ym/MsgType.h` is not part of this model. The values of `conv2bitmask` (1, 2, 4, 8, 16) and `kMsgMaskAll` (31) are assumptions, and the mask is taken to be 32 bits wide. The proofs rely only on these facts: each kind has one bit, different kinds have disjoint bits, and `MaskAll` holds all five bits.
- `mIter`: the handler does not store a list iterator. `UnregHandler` finds the handler's position with `Locate`, a linear search. Under the invariant this gives the same entry, but the O(1) erase is not modelled.
- Concrete handlers' behaviour, virtual dispatch and exceptions: the virtual `put_msg` is replaced by an append to a ghost delivery log. A concrete handler cannot re-enter the manager during the fan-out, because `EventProc` may modify only the log. The source leaves re-entrancy undefined.
- The `default: ASSERT_NOT_REACHED` branch of `put_msg` cannot be reached, because the kinds are a closed datatype.
- Destructors and memory management: they are modelled as the explicit methods `Handler.Dispose` and `Manager.Teardown`. Object lifetime and freeing are not modelled.
- Counter width: the counters are unbounded `nat`. The source's `int` counters could overflow after 2^31 - 1 messages of one kind. `msg_num` (c++-src/MsgMgrImpl.cc:106) adds the five counters in `int`, so it overflows sooner, once the total passes 2^31 - 1. `MsgCounters.TallyTotal` ("msg_num is N") therefore holds in the source only while N stays below 2^31.
