/** The five per-kind message counters of the manager, as a value. The
    manager keeps them in five fields; `Messaging.Manager.Counts` reads them
    out as a `Counters`, and the manager's methods are specified by the
    functions here. */
module MsgCounters {
  import opened MsgTypes

  datatype Counters = Counters(error: nat, warning: nat, info: nat, failure: nat, debug: nat)
  {
    /** The counter of one kind (`error_num`, `warning_num`, ...). */
    function Get(t: MsgType): nat
    {
      match t
      case Error => error
      case Warning => warning
      case Info => info
      case Failure => failure
      case Debug => debug
    }

    /** The number of messages of all kinds (`msg_num`). */
    function Total(): (n: nat)
      ensures n == Get(Error) + Get(Warning) + Get(Info) + Get(Failure) + Get(Debug)
    {
      error + warning + info + failure + debug
    }

    /** The counters after one more message of kind `t`: that kind's counter
        goes up by one, the other four stay, and the total goes up by one. */
    function Bump(t: MsgType): (c: Counters)
      ensures forall u :: c.Get(u) == Get(u) + (if u == t then 1 else 0)
      ensures c.Total() == Total() + 1
    {
      match t
      case Error => this.(error := error + 1)
      case Warning => this.(warning := warning + 1)
      case Info => this.(info := info + 1)
      case Failure => this.(failure := failure + 1)
      case Debug => this.(debug := debug + 1)
    }
  }

  /** The counters `clear_count` leaves. */
  const Cleared: Counters := Counters(0, 0, 0, 0, 0)

  /** The counters after `clear_count` followed by one message of each kind
      in `ts`, in order. */
  function Tally(ts: seq<MsgType>): Counters
  {
    if ts == [] then Cleared else Tally(ts[..|ts| - 1]).Bump(ts[|ts| - 1])
  }

  /** After `clear_count` and a run of messages, each counter is the number
      of messages of its kind. */
  lemma {:induction false} TallyCounts(ts: seq<MsgType>, t: MsgType)
    ensures Tally(ts).Get(t) == multiset(ts)[t]
  {
    if ts != [] {
      var init, last := ts[..|ts| - 1], ts[|ts| - 1];
      TallyCounts(init, t);
      assert Tally(ts) == Tally(init).Bump(last);
      assert ts == init + [last];
      assert multiset(ts) == multiset(init) + multiset{last};
    }
  }

  /** After `clear_count` and a run of messages, the total is the number of
      messages. */
  lemma {:induction false} TallyTotal(ts: seq<MsgType>)
    ensures Tally(ts).Total() == |ts|
  {
    if ts != [] {
      TallyTotal(ts[..|ts| - 1]);
    }
  }
}
