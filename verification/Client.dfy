/** The client: the round-robin sending pass, the reset on connection, and the dispatch of what arrives. */
module Client {
  import opened Wrappers
  import opened Queues

  // ----- a sending pass, as a function

  /** One talker's turn: its queue afterwards, and what it handed to the connection. */
  function Turn(t: Talker): (Talker, seq<Message>)
  {
    if t.Empty() then (t, []) else (t.Pop(), [t.Next()])
  }

  /** How many talkers get a turn: the pass stops where the connection is found inactive. */
  function Reached(active: seq<bool>): (n: nat)
    ensures n <= |active| && (forall i :: 0 <= i < n ==> active[i]) && (n < |active| ==> !active[n])
  {
    if active == [] || !active[0] then 0 else 1 + Reached(active[1..])
  }

  /** What still awaits sending after a turn is what did before, less what was sent. */
  lemma {:induction false} TurnSendsNext(t: Talker)
    ensures Turn(t).1 + Turn(t).0.Pending() == t.Pending()
    ensures |Turn(t).1| == (if t.Pending() == [] then 0 else 1)
    ensures t.Empty() <==> t.Pending() == []
  {
    if !t.Empty() && t.headPopped { assert [t.q[0]] + t.q[1..] == t.q; }
  }

  /** One talker after `n` passes with an active connection and no pushes, and all it sent. */
  function Turns(t: Talker, n: nat): (Talker, seq<Message>)
  {
    if n == 0 then (t, [])
    else
      var (t1, sent) := Turns(t, n - 1);
      var (t2, more) := Turn(t1);
      (t2, sent + more)
  }

  /** `n` passes send the first `n` pending messages, in order, and leave the rest. */
  lemma {:induction false} TurnsSendPrefix(t: Talker, n: nat)
    ensures Turns(t, n).1 + Turns(t, n).0.Pending() == t.Pending()
    ensures |Turns(t, n).1| == (if n < |t.Pending()| then n else |t.Pending()|)
    ensures Turns(t, n).0.Empty() <==> |t.Pending()| <= n
  {
    hide Turn, Talker.Empty, Talker.Pending;
    if n > 0 {
      TurnsSendPrefix(t, n - 1);
      var t1, sent := Turns(t, n - 1).0, Turns(t, n - 1).1;
      TurnSendsNext(t1);
      assert sent + Turn(t1).1 + Turn(t1).0.Pending() == sent + t1.Pending();
    }
    TurnSendsNext(Turns(t, n).0);
  }

  function LongestBacklog(ts: seq<Talker>): (n: nat)
    ensures forall i :: 0 <= i < |ts| ==> |ts[i].q| <= n
    ensures ts != [] ==> exists i :: 0 <= i < |ts| && |ts[i].q| == n
  {
    if ts == [] then 0
    else
      var rest := LongestBacklog(Front(ts));
      if |Last(ts).q| > rest then |Last(ts).q| else rest
  }

  /** After a reset, exactly when one pass more than the longest backlog has gone by is every talker empty;
      each has then sent its head message followed by its whole backlog, in order. */
  lemma {:induction false} DrainedAfterReset(ts: seq<Talker>, n: nat)
    requires ts != []
    ensures (forall i :: 0 <= i < |ts| ==> Turns(ts[i].Reset(), n).0.Empty()) <==> 1 + LongestBacklog(ts) <= n
    ensures 1 + LongestBacklog(ts) <= n ==> forall i :: 0 <= i < |ts| ==> Turns(ts[i].Reset(), n).1 == [ts[i].head] + ts[i].q
  {
    hide Turns;
    forall i | 0 <= i < |ts|
      ensures Turns(ts[i].Reset(), n).0.Empty() <==> 1 + |ts[i].q| <= n
      ensures 1 + |ts[i].q| <= n ==> Turns(ts[i].Reset(), n).1 == [ts[i].head] + ts[i].q
    {
      TurnsSendPrefix(ts[i].Reset(), n);
      TurnSendsNext(Turns(ts[i].Reset(), n).0);
    }
    var i :| 0 <= i < |ts| && |ts[i].q| == LongestBacklog(ts);
  }

  // ----- the object

  class RosbridgeClient {
    var talkers: seq<TalkerQueue>
    var listeners: map<string, seq<ListenerQueue>>

    /** Every queue is attached once. */
    ghost predicate Valid()
      reads this
    {
      && (forall i, j :: 0 <= i < j < |talkers| ==> talkers[i] != talkers[j])
      && (forall a, i, b, j :: a in listeners && b in listeners && 0 <= i < |listeners[a]| && 0 <= j < |listeners[b]| && (a != b || i != j) ==>
            listeners[a][i] != listeners[b][j])
    }

    constructor ()
      ensures Valid() && talkers == [] && listeners == map[]
    {
      talkers, listeners := [], map[];
    }

    method AttachTalker(q: TalkerQueue)
      requires Valid() && q !in talkers
      modifies this`talkers
      ensures Valid() && talkers == old(talkers) + [q]
    {
      talkers := talkers + [q];
    }

    method AttachListener(q: ListenerQueue, topic: string)
      requires Valid() && forall a :: a in listeners ==> q !in listeners[a]
      modifies this`listeners
      ensures Valid() && listeners == old(listeners)[topic := old(if topic in listeners then listeners[topic] else []) + [q]]
    {
      listeners := listeners[topic := (if topic in listeners then listeners[topic] else []) + [q]];
    }

    /** One pass; `active[i]` is what the connection answers when the i-th talker is looked at, and the
        result is what each talker handed to it. */
    method Talk(active: seq<bool>) returns (sent: seq<seq<Message>>)
      requires Valid() && |active| == |talkers|
      modifies talkers
      ensures |sent| == |talkers|
      ensures forall i :: 0 <= i < Reached(active) ==>
                talkers[i].Value() == Turn(old(talkers[i].Value())).0 && sent[i] == Turn(old(talkers[i].Value())).1
      ensures forall i :: Reached(active) <= i < |talkers| ==>
                talkers[i].Value() == old(talkers[i].Value()) && sent[i] == []
    {
      sent := seq(|talkers|, _ => []);
      for i := 0 to |talkers|
        invariant i <= Reached(active) && |sent| == |talkers|
        invariant forall j :: 0 <= j < i ==>
                    talkers[j].Value() == Turn(old(talkers[j].Value())).0 && sent[j] == Turn(old(talkers[j].Value())).1
        invariant forall j :: i <= j < |talkers| ==> talkers[j].Value() == old(talkers[j].Value()) && sent[j] == []
      {
        if !active[i] { break; }
        var t := talkers[i];
        var empty := t.Empty();
        if empty { continue; }
        var m := t.Next();
        sent := sent[i := [m]];
        t.Pop();
      }
    }

    /** The timer's ticks while the connection stays active and nothing is pushed. */
    method Tick(passes: nat) returns (sent: seq<seq<Message>>)
      requires Valid()
      modifies talkers
      ensures |sent| == |talkers|
      ensures forall i :: 0 <= i < |talkers| ==>
                talkers[i].Value() == Turns(old(talkers[i].Value()), passes).0 && sent[i] == Turns(old(talkers[i].Value()), passes).1
    {
      sent := seq(|talkers|, _ => []);
      for n := 0 to passes
        invariant talkers == old(talkers) && |sent| == |talkers|
        invariant forall i :: 0 <= i < |talkers| ==>
                    talkers[i].Value() == Turns(old(talkers[i].Value()), n).0 && sent[i] == Turns(old(talkers[i].Value()), n).1
      {
        var active := seq(|talkers|, _ => true);
        var more := Talk(active);
        assert Reached(active) == |talkers|;
        sent := seq(|sent|, i requires 0 <= i < |sent| && |sent| == |more| => sent[i] + more[i]);
      }
    }

    /** Run when a connection opens. */
    method ResetTalkers()
      requires Valid()
      modifies talkers
      ensures forall i :: 0 <= i < |talkers| ==> talkers[i].Value() == old(talkers[i].Value()).Reset()
    {
      for i := 0 to |talkers|
        invariant forall j :: 0 <= j < i ==> talkers[j].Value() == old(talkers[j].Value()).Reset()
        invariant forall j :: i <= j < |talkers| ==> talkers[j].Value() == old(talkers[j].Value())
      {
        talkers[i].Reset();
      }
    }

    ghost function AllListeners(): set<ListenerQueue>
      reads this
    {
      set a, i | a in listeners && 0 <= i < |listeners[a]| :: listeners[a][i]
    }

    /** Publications are dispatched by topic, service calls and responses by service; an unknown operation
        goes nowhere. Looking up an unknown name leaves an empty entry behind. */
    method Listen(msg: Message)
      requires Valid()
      modifies this`listeners, AllListeners()
      ensures Valid()
      ensures var known := msg.op == "publish" || msg.op == "call_service" || msg.op == "service_response";
              && listeners == (if known && msg.name !in old(listeners) then old(listeners)[msg.name := []] else old(listeners))
              && forall a, i :: a in old(listeners) && 0 <= i < |old(listeners)[a]| ==>
                old(listeners)[a][i].Value() ==
                (if known && a == msg.name then old(listeners[a][i].Value()).Push(msg) else old(listeners[a][i].Value()))
    {
      if !Dispatched(msg) { return; }
      if msg.name !in listeners {
        listeners := listeners[msg.name := []];
        return;
      }
      var qs := listeners[msg.name];
      for i := 0 to |qs|
        invariant listeners == old(listeners)
        invariant forall a, j :: a in listeners && 0 <= j < |listeners[a]| ==>
                    listeners[a][j].Value() ==
                    (if a == msg.name && j < i then old(listeners[a][j].Value()).Push(msg) else old(listeners[a][j].Value()))
      {
        assert qs[i] in AllListeners();
        qs[i].Push(msg);
      }
    }
  }

  predicate Dispatched(msg: Message)
  {
    msg.op == "publish" || msg.op == "call_service" || msg.op == "service_response"
  }
}
