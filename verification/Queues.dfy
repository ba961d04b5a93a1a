/** The bounded queues between application threads and the connection: as values, with one function
    for each locked method, and as the objects whose methods compute those functions. */
module Queues {
  import opened Wrappers

  datatype Message = Message(op: string, name: string, id: string, payload: string)

  /** The width of the constructor argument. */
  type int32 = x: int | -0x8000_0000 <= x < 0x8000_0000

  /** The bound as compared with a container size: a negative int becomes a huge unsigned number. */
  function Limit(qSize: int32): nat
  {
    if qSize >= 0 then qSize else qSize + 0x1_0000_0000_0000_0000
  }

  /** What dropping the oldest leaves of `q`. */
  function Newest<T>(q: seq<T>, limit: nat): seq<T>
  {
    if |q| <= limit then q else q[|q| - limit..]
  }

  /** A queue that holds what was put in last still does so after one more, with the oldest dropped. */
  lemma {:induction false} NewestIsSuffix<T>(all: seq<T>, from: nat, x: T, limit: nat)
    requires from <= |all| && |all| - from <= limit
    ensures var q' := Newest(all[from..] + [x], limit);
            && |q'| <= limit && |q'| <= |all| + 1 - from
            && q' == (all + [x])[|all| + 1 - |q'|..]
            && (from < |all| ==> q' != [])
  {
    assert all[from..] + [x] == (all + [x])[from..];
    if |all| + 1 - from > limit {
      assert (all + [x])[from..][1..] == (all + [x])[from + 1..];
    }
  }

  /** With a bound that is not negative, the queue grows by one message until it is full, and then drops its oldest;
      a negative bound is too large to matter before the queue has nearly 2^64 messages. No more is ever dropped. */
  lemma {:induction false} NewestDropsOldest<T>(q: seq<T>, x: T, qSize: int32)
    requires qSize >= 0 ==> |q| <= qSize
    requires qSize < 0 ==> |q| < 0xFFFF_FFFF_0000_0000
    ensures qSize >= 0 && |q| == qSize ==> Newest(q + [x], Limit(qSize)) == (q + [x])[1..]
    ensures !(qSize >= 0 && |q| == qSize) ==> Newest(q + [x], Limit(qSize)) == q + [x]
  {
  }

  // ----- towards the server

  datatype Talker = Talker(qSize: int32, head: Message, headPopped: bool, q: seq<Message>)
  {
    function Push(m: Message): Talker { this.(q := Newest(q + [m], Limit(qSize))) }

    predicate Empty() { headPopped && q == [] }

    /** The next message; there is none when the queue is empty. */
    function Next(): Message
      requires !Empty()
    {
      if headPopped then q[0] else head
    }

    /** The first removal after a reset only marks the head message as sent. */
    function Pop(): Talker
      requires !Empty()
    {
      if headPopped then this.(q := q[1..]) else this.(headPopped := true)
    }

    function Reset(): Talker { this.(headPopped := false) }

    /** Everything still to be sent, in order. */
    function Pending(): seq<Message> { (if headPopped then [] else [head]) + q }
  }

  class TalkerQueue {
    const qSize: int32
    const headMsg: Message
    var headPopped: bool
    var q: seq<Message>

    ghost function Value(): Talker
      reads this
    {
      Talker(qSize, headMsg, headPopped, q)
    }

    constructor (queueSize: int32, head: Message)
      ensures Value() == Talker(queueSize, head, false, [])
    {
      qSize, headMsg, headPopped, q := queueSize, head, false, [];
    }

    method Push(msg: Message)
      modifies this
      ensures Value() == old(Value()).Push(msg)
      ensures |q| <= |old(q)| + 1 && q == (old(q) + [msg])[|old(q)| + 1 - |q|..]
      ensures qSize >= 0 ==> |q| == (if |old(q)| + 1 <= qSize then |old(q)| + 1 else qSize)
      ensures qSize < 0 && |old(q)| < 0xFFFF_FFFF_0000_0000 ==> |q| == |old(q)| + 1
    {
      q := q + [msg];
      ghost var all := q;
      while |q| > Limit(qSize)
        invariant headPopped == old(headPopped)
        invariant |q| <= |all| && q == all[|all| - |q|..]
        invariant |q| < |all| ==> Limit(qSize) <= |q|
      {
        q := q[1..];
      }
    }

    method Pop()
      requires !Value().Empty()
      modifies this
      ensures Value() == old(Value()).Pop()
    {
      if headPopped { q := q[1..]; } else { headPopped := true; }
    }

    method Next() returns (m: Message)
      requires !Value().Empty()
      ensures m == Value().Next()
    {
      m := if headPopped then q[0] else headMsg;
    }

    method Empty() returns (b: bool)
      ensures b <==> Value().Empty()
    {
      b := headPopped && |q| == 0;
    }

    method Reset()
      modifies this
      ensures Value() == old(Value()).Reset()
    {
      headPopped := false;
    }
  }

  // ----- from the server

  datatype Listener = Listener(qSize: int32, q: seq<Message>)
  {
    function Push(m: Message): Listener { this.(q := Newest(q + [m], Limit(qSize))) }
    predicate Empty() { q == [] }
    function Next(): Message
      requires !Empty()
    {
      q[0]
    }
    function Pop(): Listener
      requires !Empty()
    {
      this.(q := q[1..])
    }
  }

  class ListenerQueue {
    const qSize: int32
    var q: seq<Message>

    ghost function Value(): Listener
      reads this
    {
      Listener(qSize, q)
    }

    constructor (queueSize: int32)
      ensures Value() == Listener(queueSize, [])
    {
      qSize, q := queueSize, [];
    }

    method Push(msg: Message)
      modifies this
      ensures Value() == old(Value()).Push(msg)
      ensures |q| <= |old(q)| + 1 && q == (old(q) + [msg])[|old(q)| + 1 - |q|..]
      ensures qSize >= 0 ==> |q| == (if |old(q)| + 1 <= qSize then |old(q)| + 1 else qSize)
      ensures qSize < 0 && |old(q)| < 0xFFFF_FFFF_0000_0000 ==> |q| == |old(q)| + 1
    {
      q := q + [msg];
      ghost var all := q;
      while |q| > Limit(qSize)
        invariant |q| <= |all| && q == all[|all| - |q|..]
        invariant |q| < |all| ==> Limit(qSize) <= |q|
      {
        q := q[1..];
      }
    }

    method Next() returns (m: Message)
      requires !Value().Empty()
      ensures m == Value().Next()
    {
      m := q[0];
    }

    method Pop()
      requires !Value().Empty()
      modifies this
      ensures Value() == old(Value()).Pop()
    {
      q := q[1..];
    }

    method Empty() returns (b: bool)
      ensures b <==> Value().Empty()
    {
      b := |q| == 0;
    }

    /** The oldest message with the given id. */
    method NextById(id: string) returns (r: Option<Message>)
      ensures r.Some? ==> exists i :: 0 <= i < |q| && r.value == q[i] && q[i].id == id && forall j :: 0 <= j < i ==> q[j].id != id
      ensures r.None? ==> forall j :: 0 <= j < |q| ==> q[j].id != id
    {
      for i := 0 to |q|
        invariant forall j :: 0 <= j < i ==> q[j].id != id
      {
        if q[i].id == id { return Some(q[i]); }
      }
      return None;
    }
  }
}
