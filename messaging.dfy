/** The message manager (`MsgMgrImpl`) and the handler base class
    (`MsgHandler`). The two refer to each other: the manager keeps an ordered
    list of handlers and each handler keeps a back-reference to the manager it
    is registered with, so both classes live in this one module.

    A handler's virtual `put_msg` is not modelled by what a concrete handler
    does with the message; it appends a `Delivery` to a `DeliveryLog`, so that
    the manager's fan-out can be specified as the sequence of deliveries it
    causes. */
module Messaging {
  import opened MsgTypes
  import opened MsgCounters

  /** One call of a handler's `put_msg`: the handler and the message it got. */
  datatype Delivery = Delivery(receiver: Handler, msg: Message)

  /** The calls of the handlers' `put_msg`, oldest first. */
  class DeliveryLog {
    ghost var events: seq<Delivery>

    constructor ()
      ensures events == []
    {
      events := [];
    }
  }

  /** The position of `h` in `s` (the list position a handler's `mIter`
      designates): the first place `h` occurs. */
  function IndexOf(s: seq<Handler>, h: Handler): (i: nat)
    requires h in s
    ensures i < |s| && s[i] == h && h !in s[..i]
  {
    if s[0] == h then 0
    else
      var j := IndexOf(s[1..], h);
      assert s[..j + 1] == [s[0]] + s[1..][..j];
      j + 1
  }

  /** `s` without the entry of `h` at `IndexOf(s, h)`; the other entries keep
      their order (what `std::list::erase` does at a handler's `mIter`). */
  function Erase(s: seq<Handler>, h: Handler): (r: seq<Handler>)
    requires h in s
    ensures |r| == |s| - 1
    ensures multiset(r) == multiset(s) - multiset{h}
    ensures forall j :: 0 <= j < |r| ==> r[j] == if j < IndexOf(s, h) then s[j] else s[j + 1]
  {
    var i := IndexOf(s, h);
    assert s == s[..i] + [s[i]] + s[i + 1..];
    s[..i] + s[i + 1..]
  }

  /** The deliveries that offering `msg` to every handler of `hs`, first to
      last, causes: one for each handler whose mask accepts the message's kind. */
  function Deliveries(hs: seq<Handler>, msg: Message): seq<Delivery>
    reads hs
  {
    if hs == [] then []
    else
      var last := hs[|hs| - 1];
      Deliveries(hs[..|hs| - 1], msg) + (if Accepts(last.mask, msg.msgType) then [Delivery(last, msg)] else [])
  }

  /** The two-way registration invariant over a set of managers and a set of
      handlers: every handler a manager lists is one of `hs`, every manager a
      handler points to is one of `ms`, and a handler points to a manager
      exactly when it occurs in that manager's list, and then exactly once. */
  ghost predicate Coherent(ms: set<Manager>, hs: set<Handler>)
    reads ms, hs
  {
    && (forall m, h :: m in ms && h in m.handlers ==> h in hs)
    && (forall h :: h in hs && h.mgr != null ==> h.mgr in ms)
    && (forall m, h :: m in ms && h in hs ==> multiset(m.handlers)[h] == if h.mgr == m then 1 else 0)
  }

  /** Offering the message to one more handler of the list extends the
      fan-out by that handler's delivery, if any. */
  lemma DeliveriesStep(hs: seq<Handler>, i: nat, msg: Message)
    requires i < |hs|
    ensures Deliveries(hs[..i + 1], msg) ==
      Deliveries(hs[..i], msg) + if Accepts(hs[i].mask, msg.msgType) then [Delivery(hs[i], msg)] else []
  {
    assert hs[..i + 1][..i] == hs[..i];
  }

  /** Every delivery of the fan-out carries the message unchanged and goes to
      a handler of the list whose mask accepts the message's kind. */
  lemma {:induction false} DeliveriesSound(hs: seq<Handler>, msg: Message)
    ensures forall d :: d in Deliveries(hs, msg) ==>
      d.msg == msg && d.receiver in hs && Accepts(d.receiver.mask, msg.msgType)
  {
    if hs != [] {
      var init := hs[..|hs| - 1];
      DeliveriesSound(init, msg);
      assert forall h :: h in init ==> h in hs;
    }
  }

  /** The fan-out reaches a handler once for each time it is listed when its
      mask accepts the message's kind, and never otherwise. */
  lemma {:induction false} DeliveriesCount(hs: seq<Handler>, msg: Message, h: Handler)
    ensures multiset(Deliveries(hs, msg))[Delivery(h, msg)] ==
      if Accepts(h.mask, msg.msgType) then multiset(hs)[h] else 0
  {
    if hs != [] {
      var init, last := hs[..|hs| - 1], hs[|hs| - 1];
      DeliveriesCount(init, msg, h);
      assert hs == init + [last];
      assert multiset(hs) == multiset(init) + multiset{last};
    }
  }

  /** When every listed handler accepts the kind, the fan-out reaches them all,
      one delivery each, in list order. */
  lemma {:induction false} DeliveriesInOrder(hs: seq<Handler>, msg: Message)
    requires forall i :: 0 <= i < |hs| ==> Accepts(hs[i].mask, msg.msgType)
    ensures |Deliveries(hs, msg)| == |hs|
    ensures forall i :: 0 <= i < |hs| ==> Deliveries(hs, msg)[i] == Delivery(hs[i], msg)
  {
    if hs != [] {
      DeliveriesInOrder(hs[..|hs| - 1], msg);
    }
  }

  /** Under the registration invariant, a handler is in a manager's list
      exactly when it points to that manager. */
  lemma ListedIffRegistered(ms: set<Manager>, hs: set<Handler>, m: Manager, h: Handler)
    requires Coherent(ms, hs) && m in ms && h in hs
    ensures h in m.handlers <==> h.mgr == m
  {
    assert h in m.handlers <==> multiset(m.handlers)[h] > 0;
  }

  /** Under the registration invariant, `put_msg` on a manager reaches a
      handler exactly once when the handler is registered with it and accepts
      the kind, and not at all otherwise (in particular not after the handler
      was unregistered or disposed of). */
  lemma RegisteredReceivesOnce(ms: set<Manager>, hs: set<Handler>, m: Manager, h: Handler, msg: Message)
    requires Coherent(ms, hs) && m in ms && h in hs
    ensures multiset(Deliveries(m.handlers, msg))[Delivery(h, msg)] ==
      if h.mgr == m && Accepts(h.mask, msg.msgType) then 1 else 0
  {
    DeliveriesCount(m.handlers, msg, h);
  }

  /** No managers and no handlers satisfy the registration invariant. */
  lemma CoherentEmpty()
    ensures Coherent({}, {})
  {
  }

  /** A new, unregistered handler that no manager lists can join the
      invariant. */
  lemma CoherentAddHandler(ms: set<Manager>, hs: set<Handler>, h: Handler)
    requires Coherent(ms, hs) && h.mgr == null
    requires forall m :: m in ms ==> h !in m.handlers
    ensures Coherent(ms, hs + {h})
  {
    forall m | m in ms
      ensures multiset(m.handlers)[h] == 0
    {
      assert h !in m.handlers;
    }
  }

  /** A new manager with an empty list that no handler points to can join the
      invariant. */
  lemma CoherentAddManager(ms: set<Manager>, hs: set<Handler>, m: Manager)
    requires Coherent(ms, hs) && m.handlers == []
    requires forall h :: h in hs ==> h.mgr != m
    ensures Coherent(ms + {m}, hs)
  {
  }

  class Handler {
    /** `mMask`: the kinds of message this handler accepts. */
    var mask: MsgBitMask
    /** `mMgr`: the manager this handler is registered with, if any. */
    var mgr: Manager?

    /** `MsgHandler(mask)`. The handler starts unregistered. */
    constructor (initMask: MsgBitMask)
      ensures mask == initMask && mgr == null
    {
      mask := initMask;
      mgr := null;
    }

    /** `MsgHandler()`, with the default mask. */
    constructor Default()
      ensures mask == MaskAll && mgr == null
    {
      mask := MaskAll;
      mgr := null;
    }

    /** `mask()`. */
    function Mask(): (r: MsgBitMask)
      reads this`mask
      ensures r == mask
    {
      mask
    }

    /** `set_mask(newMask)`. */
    method SetMask(newMask: MsgBitMask)
      modifies this`mask
      ensures Mask() == newMask
    {
      mask := newMask;
    }

    /** `add_mask(t)`. */
    method AddMask(t: MsgType)
      modifies this`mask
      ensures mask == Added(old(mask), t)
    {
      mask := mask | Conv2BitMask(t);
    }

    /** `delete_mask(t)`. */
    method DeleteMask(t: MsgType)
      modifies this`mask
      ensures mask == Deleted(old(mask), t)
    {
      mask := mask & !Conv2BitMask(t);
    }

    /** The virtual `put_msg`: the concrete handler receives `msg`. */
    method PutMsg(msg: Message, log: DeliveryLog)
      modifies log
      ensures log.events == old(log.events) + [Delivery(this, msg)]
    {
      log.events := log.events + [Delivery(this, msg)];
    }

    /** `event_proc`: pass `msg` on to `put_msg` when the mask accepts its kind,
        and otherwise do nothing. */
    method EventProc(msg: Message, log: DeliveryLog)
      modifies log
      ensures log.events == old(log.events) + if Accepts(mask, msg.msgType) then [Delivery(this, msg)] else []
    {
      var bit := Conv2BitMask(msg.msgType);
      if mask & bit != 0 {
        PutMsg(msg, log);
      }
    }

    /** `~MsgHandler`: a registered handler unregisters itself from its manager;
        an unregistered one touches no manager. */
    method Dispose(ghost ms: set<Manager>, ghost hs: set<Handler>)
      requires Coherent(ms, hs) && this in hs
      modifies this`mgr, mgr
      ensures mgr == null && mask == old(mask)
      ensures old(mgr) != null ==> old(mgr).handlers == Erase(old(mgr.handlers), this)
      ensures old(mgr) != null ==> old(mgr).Counts() == old(mgr.Counts())
      ensures forall m :: m in ms ==> this !in m.handlers
      ensures Coherent(ms, hs)
    {
      if mgr != null {
        mgr.UnregHandler(this, ms, hs);
      }
    }
  }

  class Manager {
    /** `mHandlerList`, in registration order. */
    var handlers: seq<Handler>
    /** `mErrorNum`, `mWarningNum`, `mInfoNum`, `mFailNum`, `mDebugNum`. */
    var errorNum: nat
    var warningNum: nat
    var infoNum: nat
    var failNum: nat
    var debugNum: nat

    /** The five counters as one value. */
    function Counts(): Counters
      reads this`errorNum, this`warningNum, this`infoNum, this`failNum, this`debugNum
    {
      Counters(errorNum, warningNum, infoNum, failNum, debugNum)
    }

    /** `MsgMgrImpl()`: no handlers, all counters cleared. */
    constructor ()
      ensures handlers == [] && Counts() == Cleared
    {
      handlers := [];
      errorNum, warningNum, infoNum, failNum, debugNum := 0, 0, 0, 0, 0;
    }

    /** `reg_handler(h)`: `h` must be unregistered; it is appended to the list
        and points back to this manager. */
    method RegHandler(h: Handler, ghost ms: set<Manager>, ghost hs: set<Handler>)
      requires h.mgr == null
      requires Coherent(ms, hs) && this in ms && h in hs
      modifies this`handlers, h`mgr
      ensures h.mgr == this
      ensures handlers == old(handlers) + [h]
      ensures Coherent(ms, hs)
    {
      h.mgr := this;
      handlers := handlers + [h];
    }

    /** `unreg_handler(h)`: `h` must be registered with this manager; its one
        entry leaves the list and it points to no manager. */
    method UnregHandler(h: Handler, ghost ms: set<Manager>, ghost hs: set<Handler>)
      requires h.mgr == this
      requires Coherent(ms, hs) && this in ms && h in hs
      modifies this`handlers, h`mgr
      ensures h.mgr == null
      ensures old(h in handlers) && handlers == Erase(old(handlers), h)
      ensures h !in handlers
      ensures Coherent(ms, hs)
    {
      ghost var before: seq<Handler> := handlers;
      assert multiset(before)[h] == 1;
      var i := Locate(h);
      handlers := handlers[..i] + handlers[i + 1..];
      h.mgr := null;
      assert handlers == Erase(before, h);
      assert multiset(handlers) == multiset(before) - multiset{h};
      forall x | x in handlers
        ensures x in before
      {
        assert multiset(handlers)[x] > 0;
      }
    }

    /** Where `h` sits in the list: the model's stand-in for the list iterator
        `mIter` that `reg_handler` stores in the handler. */
    method Locate(h: Handler) returns (i: nat)
      requires h in handlers
      ensures i == IndexOf(handlers, h)
    {
      i := 0;
      while handlers[i] != h
        invariant i < |handlers|
        invariant h in handlers[i..]
        invariant h !in handlers[..i]
        decreases |handlers| - i
      {
        assert handlers[..i + 1] == handlers[..i] + [handlers[i]];
        assert handlers[i..] == [handlers[i]] + handlers[i + 1..];
        i := i + 1;
      }
    }

    /** `unreg_all_handlers()`: every listed handler points to no manager and
        the list is empty. */
    method UnregAllHandlers(ghost ms: set<Manager>, ghost hs: set<Handler>)
      requires Coherent(ms, hs) && this in ms
      modifies this`handlers, set h | h in handlers
      ensures handlers == []
      ensures forall h :: h in old(handlers) ==> h.mgr == null && h.mask == old(h.mask)
      ensures Coherent(ms, hs)
    {
      var listed := handlers;
      var i := 0;
      while i < |listed|
        invariant 0 <= i <= |listed|
        invariant forall j :: 0 <= j < i ==> listed[j].mgr == null
        invariant forall h :: h in listed ==> h.mask == old(h.mask)
        modifies set h | h in listed
      {
        listed[i].mgr := null;
        i := i + 1;
      }
      handlers := [];
    }

    /** `~MsgMgrImpl`: unregisters (does not destroy) every handler. */
    method Teardown(ghost ms: set<Manager>, ghost hs: set<Handler>)
      requires Coherent(ms, hs) && this in ms
      modifies this`handlers, set h | h in handlers
      ensures handlers == []
      ensures forall h :: h in old(handlers) ==> h.mgr == null && h.mask == old(h.mask)
      ensures Coherent(ms, hs)
    {
      UnregAllHandlers(ms, hs);
    }

    /** The first half of `put_msg`: count one message of kind `t` under that
        kind. */
    method CountMessage(t: MsgType)
      modifies this`errorNum, this`warningNum, this`infoNum, this`failNum, this`debugNum
      ensures Counts() == old(Counts()).Bump(t)
    {
      match t {
        case Error => errorNum := errorNum + 1;
        case Warning => warningNum := warningNum + 1;
        case Info => infoNum := infoNum + 1;
        case Failure => failNum := failNum + 1;
        case Debug => debugNum := debugNum + 1;
      }
    }

    /** `put_msg(msg)`: count the message under its kind, then offer it to
        every registered handler in registration order. */
    method PutMsg(msg: Message, log: DeliveryLog)
      modifies this`errorNum, this`warningNum, this`infoNum, this`failNum, this`debugNum, log
      ensures Counts() == old(Counts()).Bump(msg.msgType)
      ensures MsgNum() == old(MsgNum()) + 1
      ensures log.events == old(log.events) + Deliveries(handlers, msg)
    {
      CountMessage(msg.msgType);
      Dispatch(msg, log);
    }

    /** The second half of `put_msg`: `event_proc` on every listed handler,
        first to last. */
    method Dispatch(msg: Message, log: DeliveryLog)
      modifies log
      ensures log.events == old(log.events) + Deliveries(handlers, msg)
    {
      var i := 0;
      while i < |handlers|
        invariant 0 <= i <= |handlers|
        invariant log.events == old(log.events) + Deliveries(handlers[..i], msg)
      {
        DeliveriesStep(handlers, i, msg);
        handlers[i].EventProc(msg, log);
        i := i + 1;
      }
      assert handlers[..|handlers|] == handlers;
    }

    /** `clear_count()`. */
    method ClearCount()
      modifies this`errorNum, this`warningNum, this`infoNum, this`failNum, this`debugNum
      ensures Counts() == Cleared
    {
      errorNum, warningNum, infoNum, failNum, debugNum := 0, 0, 0, 0, 0;
    }

    /** `msg_num()`. */
    function MsgNum(): (n: nat)
      reads this`errorNum, this`warningNum, this`infoNum, this`failNum, this`debugNum
      ensures n == Counts().Total()
    {
      errorNum + warningNum + infoNum + failNum + debugNum
    }

    /** `error_num()`. */
    function ErrorNum(): (n: nat)
      reads this`errorNum
      ensures n == Counts().Get(Error)
    {
      errorNum
    }

    /** `warning_num()`. */
    function WarningNum(): (n: nat)
      reads this`warningNum
      ensures n == Counts().Get(Warning)
    {
      warningNum
    }

    /** `info_num()`. */
    function InfoNum(): (n: nat)
      reads this`infoNum
      ensures n == Counts().Get(Info)
    {
      infoNum
    }

    /** `fail_num()`. */
    function FailNum(): (n: nat)
      reads this`failNum
      ensures n == Counts().Get(Failure)
    {
      failNum
    }

    /** `debug_num()`. */
    function DebugNum(): (n: nat)
      reads this`debugNum
      ensures n == Counts().Get(Debug)
    {
      debugNum
    }
  }
}
