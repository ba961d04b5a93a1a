/** One talker queue between its producer, the sending loop and reconnections, step by locked step. */
module TalkerProtocol {
  import opened Wrappers
  import opened History
  import opened Queues

  /** What was handed to the connection: the head message, or the k-th message ever pushed. */
  datatype Item = Head | Payload(k: nat)

  /** Where the sending loop stands with this queue: `empty()` returned false, `next()` returned,
      `send()` returned. */
  datatype Phase = Idle | Checked | Fetched(item: Item, msg: Message) | Handed(item: Item)
  {
    predicate InWindow() { Fetched? || Handed? }
  }

  datatype Sent = Sent(item: Item, msg: Message)

  /** The queue, the loop, and the history: all messages pushed, what became of the first of them, all
      that was sent, and whether an empty container was ever accessed. */
  datatype System = System(t: Talker, phase: Phase, pushed: seq<Message>, fates: seq<Fate>, sent: seq<Sent>, broken: bool)

  datatype Event = Push(m: Message) | Reset | Check | Fetch | Send | Pop

  /** The loop's steps come in program order; pushes and resets come at any time. */
  predicate Enabled(s: System, e: Event)
  {
    match e
    case Push(_) => true
    case Reset => true
    case Check => s.phase.Idle?
    case Fetch => s.phase.Checked?
    case Send => s.phase.Fetched?
    case Pop => s.phase.Handed?
  }

  function Step(s: System, e: Event): System
    requires Enabled(s, e)
  {
    match e
    case Push(m) =>
      var t' := s.t.Push(m);
      s.(t := t', pushed := s.pushed + [m], fates := s.fates + Repeat(Evicted, |s.t.q| + 1 - |t'.q|))
    case Reset => s.(t := s.t.Reset())
    case Check => if s.t.Empty() then s else s.(phase := Checked)
    case Fetch =>
      if s.t.Empty() then s.(broken := true, phase := Idle)
      else s.(phase := Fetched(if s.t.headPopped then Payload(|s.fates|) else Head, s.t.Next()))
    case Send => s.(phase := Handed(s.phase.item), sent := s.sent + [Sent(s.phase.item, s.phase.msg)])
    case Pop =>
      if s.t.Empty() then s.(broken := true, phase := Idle)
      else s.(t := s.t.Pop(), phase := Idle, fates := s.fates + (if s.t.headPopped then [Popped] else []))
  }

  function Initial(qSize: int32, head: Message): System
  {
    System(Talker(qSize, head, false, []), Idle, [], [], [], false)
  }

  /** The events can happen in this order. */
  predicate CanRun(s: System, es: seq<Event>)
    decreases |es|
  {
    es == [] || (Enabled(s, es[0]) && CanRun(Step(s, es[0]), es[1..]))
  }

  function After(s: System, es: seq<Event>): System
    requires CanRun(s, es)
    decreases |es|
  {
    if es == [] then s else After(Step(s, es[0]), es[1..])
  }

  // ----- what every step keeps

  ghost predicate Meant(s: System, item: Item, msg: Message)
  {
    match item
    case Head => msg == s.t.head
    case Payload(k) => k < |s.pushed| && msg == s.pushed[k]
  }

  /** The queue holds exactly the messages pushed last, every earlier one has one fate; the container is
      never accessed empty; in a window everything taken out since the fetch was evicted. */
  ghost predicate Inv(s: System)
  {
    && !s.broken
    && |s.fates| <= |s.pushed| && s.t.q == s.pushed[|s.fates|..]
    && |s.t.q| <= Limit(s.t.qSize)
    && (!s.phase.Idle? ==> !s.t.Empty())
    && (s.phase.Fetched? ==> Meant(s, s.phase.item, s.phase.msg))
    && (forall i :: 0 <= i < |s.sent| ==> Meant(s, s.sent[i].item, s.sent[i].msg))
    && (forall i :: 0 <= i < |s.sent| && s.sent[i].item.Payload? ==> s.sent[i].item.k <= |s.fates|)
    && (s.phase.InWindow() ==> WindowInv(s, s.phase.item))
  }

  ghost predicate WindowInv(s: System, item: Item)
  {
    match item
    case Head => !s.t.headPopped
    case Payload(k) =>
      && k <= |s.fates|
      && (forall i :: k <= i < |s.fates| ==> s.fates[i] == Evicted)
      && (forall i :: 0 <= i < |s.sent| && s.sent[i].item.Payload? ==> s.sent[i].item.k <= k)
      && (s.phase.Handed? ==> s.sent != [] && Last(s.sent).item == item)
  }

  lemma {:induction false} InitialInv(qSize: int32, head: Message)
    ensures Inv(Initial(qSize, head))
  {
  }

  lemma {:induction false} StepKeepsInv(s: System, e: Event)
    requires Inv(s) && Enabled(s, e)
    ensures Inv(Step(s, e))
  {
    var s' := Step(s, e);
    match e {
      case Push(m) => PushedQueue(s, m);
      case Reset =>
      case Check =>
      case Fetch =>
      case Send =>
      case Pop =>
        assert s.t.headPopped ==> s.t.q[1..] == s.pushed[|s.fates| + 1..];
    }
  }

  lemma {:induction false} PushedQueue(s: System, m: Message)
    requires |s.fates| <= |s.pushed| && s.t.q == s.pushed[|s.fates|..] && |s.t.q| <= Limit(s.t.qSize)
    ensures var s' := Step(s, Push(m));
            && |s'.fates| <= |s'.pushed| && s'.t.q == s'.pushed[|s'.fates|..]
            && |s'.t.q| <= Limit(s.t.qSize) && (s.t.q != [] ==> s'.t.q != [])
  {
    NewestIsSuffix(s.pushed, |s.fates|, m, Limit(s.t.qSize));
  }

  lemma {:induction false} RunKeepsInv(s: System, es: seq<Event>)
    requires Inv(s) && CanRun(s, es)
    ensures Inv(After(s, es))
    decreases |es|
  {
    if es != [] {
      StepKeepsInv(s, es[0]);
      RunKeepsInv(Step(s, es[0]), es[1..]);
    }
  }

  ghost predicate Reachable(s: System)
  {
    exists qSize: int32, head, es :: CanRun(Initial(qSize, head), es) && s == After(Initial(qSize, head), es)
  }

  lemma {:induction false} ReachableInv(s: System)
    requires Reachable(s)
    ensures Inv(s)
  {
    var qSize: int32, head, es :| CanRun(Initial(qSize, head), es) && s == After(Initial(qSize, head), es);
    InitialInv(qSize, head);
    RunKeepsInv(Initial(qSize, head), es);
  }

  // ----- conservation and loss

  /** In every reachable state no container was accessed empty, the bound holds, and the messages ever
      pushed are those with one fate each followed by those queued, in order. */
  lemma {:induction false} EveryMessageHasOneFate(s: System)
    requires Reachable(s)
    ensures !s.broken && |s.t.q| <= Limit(s.t.qSize)
    ensures |s.fates| <= |s.pushed| && s.pushed == s.pushed[..|s.fates|] + s.t.q
    ensures forall i :: 0 <= i < |s.sent| ==> Meant(s, s.sent[i].item, s.sent[i].msg)
  {
    ReachableInv(s);
  }

  /** A push evicts the oldest message when the queue is full, and none otherwise; a negative bound evicts none before
      the queue has nearly 2^64 messages. */
  lemma {:induction false} PushEvictsIffFull(s: System, m: Message)
    requires Reachable(s)
    ensures Step(s, Push(m)).pushed == s.pushed + [m]
    ensures s.t.qSize >= 0 ==> Step(s, Push(m)).fates == s.fates + (if |s.t.q| == s.t.qSize then [Evicted] else [])
    ensures s.t.qSize < 0 && |s.t.q| < 0xFFFF_FFFF_0000_0000 ==> Step(s, Push(m)).fates == s.fates
  {
    ReachableInv(s);
    if s.t.qSize >= 0 || |s.t.q| < 0xFFFF_FFFF_0000_0000 { NewestDropsOldest(s.t.q, m, s.t.qSize); }
  }

  ghost predicate WasSent(s: System, k: nat)
  {
    exists i :: 0 <= i < |s.sent| && s.sent[i].item == Payload(k)
  }

  /** `pop()` throws away a message that was never sent exactly when, since the `next()` before it, a
      push has evicted the message that was sent. */
  lemma {:induction false} PopLosesIffFrontEvicted(s: System)
    requires Reachable(s) && s.phase.Handed? && s.t.headPopped
    ensures s.phase.item.Payload? && s.phase.item.k <= |s.fates| < |s.pushed|
    ensures Step(s, Pop).fates == s.fates + [Popped]
    ensures !WasSent(s, |s.fates|) <==> s.phase.item.k < |s.fates| && s.fates[s.phase.item.k] == Evicted
  {
    ReachableInv(s);
    if s.phase.item.k == |s.fates| {
      assert s.sent[|s.sent| - 1].item == Payload(|s.fates|);
    }
  }

  // ----- order of what is sent

  function PayloadsOf(log: seq<Sent>): seq<nat>
  {
    if log == [] then []
    else PayloadsOf(Front(log)) + (if Last(log).item.Payload? then [Last(log).item.k] else [])
  }

  /** The payloads of `log` are in order, and what the loop holds or will fetch comes after them. */
  ghost predicate InOrder(s: System, log: seq<Sent>)
  {
    && Increasing(PayloadsOf(log))
    && AllBelow(PayloadsOf(log),
         if s.phase.Fetched? && s.phase.item.Payload? then s.phase.item.k
         else if s.phase.Handed? && s.phase.item.Payload? then s.phase.item.k + 1
         else |s.fates|)
    && (s.phase.InWindow() && s.phase.item.Payload? ==> s.t.headPopped || s.phase.item.k < |s.fates|)
  }

  /** What a step adds to the log of sent messages. */
  function Added(s: System, e: Event): seq<Sent>
    requires Enabled(s, e)
  {
    if e.Send? then [Sent(s.phase.item, s.phase.msg)] else []
  }

  lemma {:induction false} PayloadsSnoc(log: seq<Sent>, x: Sent)
    ensures PayloadsOf(log + [x]) == PayloadsOf(log) + (if x.item.Payload? then [x.item.k] else [])
  {
    FrontLast(log, x);
  }

  /** The loop holds, or has just handed out, a payload that is still the front of the queue. */
  predicate FrontInWindow(s: System)
  {
    s.phase.InWindow() && s.phase.item == Payload(|s.fates|)
  }

  lemma {:induction false} StepKeepsOrder(s: System, e: Event, log: seq<Sent>)
    requires Inv(s) && Enabled(s, e) && InOrder(s, log)
    requires e.Reset? ==> !FrontInWindow(s)
    ensures InOrder(Step(s, e), log + Added(s, e))
  {
    hide PayloadsOf;
    if e.Send? {
      PayloadsSnoc(log, Sent(s.phase.item, s.phase.msg));
    } else {
      assert log + [] == log;
      if e.Push? { PushedQueue(s, e.m); }
    }
  }

  /** No reset comes between `next()` and `pop()` of a payload that is still queued. */
  predicate CleanRun(s: System, es: seq<Event>)
    requires CanRun(s, es)
    decreases |es|
  {
    es == [] || (!(es[0].Reset? && FrontInWindow(s)) && CleanRun(Step(s, es[0]), es[1..]))
  }

  lemma {:induction false} SentGrows(s: System, es: seq<Event>)
    requires CanRun(s, es)
    ensures |s.sent| <= |After(s, es).sent| && s.sent == After(s, es).sent[..|s.sent|]
    decreases |es|
  {
    if es != [] {
      SentGrows(Step(s, es[0]), es[1..]);
      var s1, s2 := Step(s, es[0]), After(s, es);
      assert s1.sent[..|s.sent|] == s.sent;
      assert s2.sent[..|s1.sent|][..|s.sent|] == s2.sent[..|s.sent|];
    }
  }

  lemma {:induction false} CleanRunKeepsOrder(s: System, es: seq<Event>, from: nat)
    requires Inv(s) && CanRun(s, es) && CleanRun(s, es) && from <= |s.sent| && InOrder(s, s.sent[from..])
    ensures from <= |After(s, es).sent| && InOrder(After(s, es), After(s, es).sent[from..])
    decreases |es|
  {
    hide Inv, InOrder, Step, Added, FrontInWindow;
    if es != [] {
      StepKeepsInv(s, es[0]);
      StepKeepsOrder(s, es[0], s.sent[from..]);
      LogGrows(s, es[0], from);
      CleanRunKeepsOrder(Step(s, es[0]), es[1..], from);
    }
  }

  /** Without such a reset, payloads are sent in the order they were pushed, none twice. */
  lemma {:induction false} CleanRunsSendInOrder(qSize: int32, head: Message, es: seq<Event>)
    requires CanRun(Initial(qSize, head), es) && CleanRun(Initial(qSize, head), es)
    ensures Increasing(PayloadsOf(After(Initial(qSize, head), es).sent))
  {
    var s0 := Initial(qSize, head);
    InitialInv(qSize, head);
    CleanRunKeepsOrder(s0, es, 0);
    assert After(s0, es).sent[0..] == After(s0, es).sent;
  }

  // ----- runs made to order

  predicate NoReset(es: seq<Event>)
  {
    forall i :: 0 <= i < |es| ==> !es[i].Reset?
  }

  lemma {:induction false} Prepend(s: System, e: Event, es: seq<Event>)
    requires Enabled(s, e) && CanRun(Step(s, e), es)
    ensures CanRun(s, [e] + es) && After(s, [e] + es) == After(Step(s, e), es)
    ensures !e.Reset? && NoReset(es) ==> NoReset([e] + es)
  {
    assert ([e] + es)[1..] == es;
  }

  /** The loop can take a queue that is not empty through one turn up to sending. */
  lemma {:induction false} SendNext(s: System) returns (es: seq<Event>)
    requires (s.phase.Idle? || s.phase.Checked?) && !s.t.Empty()
    ensures CanRun(s, es) && NoReset(es)
    ensures After(s, es).sent == s.sent + [Sent(if s.t.headPopped then Payload(|s.fates|) else Head, s.t.Next())]
  {
    var s1 := if s.phase.Idle? then Step(s, Check) else s;
    var s2 := Step(s1, Fetch);
    es := [Send];
    assert After(s2, es) == Step(s2, Send);
    Prepend(s1, Fetch, es);
    es := [Fetch] + es;
    if s.phase.Idle? {
      Prepend(s, Check, es);
      es := [Check] + es;
    }
  }

  // ----- a reset inside a window

  predicate NoPop(es: seq<Event>)
  {
    forall i :: 0 <= i < |es| ==> !es[i].Pop?
  }

  /** What is so from a reset in the window of `s0` to the end of that window. */
  ghost predicate StillHeld(s0: System, s: System)
    requires s0.phase.InWindow()
  {
    && s.phase.InWindow() && s.phase.item == s0.phase.item && !s.t.headPopped
    && (s.phase.Fetched? ==> s.phase == s0.phase && s.sent == s0.sent)
    && (s.phase.Handed? ==> s.sent == s0.sent + if s0.phase.Fetched? then [Sent(s0.phase.item, s0.phase.msg)] else [])
  }

  lemma {:induction false} HeldUntilPop(s0: System, s: System, es: seq<Event>)
    requires s0.phase.InWindow() && StillHeld(s0, s) && CanRun(s, es) && NoPop(es)
    ensures StillHeld(s0, After(s, es))
    decreases |es|
  {
    if es != [] { HeldUntilPop(s0, Step(s, es[0]), es[1..]); }
  }

  /** A reset inside a window is undone by the `pop()` that ends the window, whatever comes between: nothing is
      sent but what the loop held, the head message counts as sent, and the queue keeps its front. */
  lemma {:induction false} ResetInWindowIsLost(s: System, es: seq<Event>)
    requires s.phase.InWindow() && CanRun(Step(s, Reset), es) && NoPop(es)
    ensures var s' := After(Step(s, Reset), es);
            && s'.phase.InWindow()
            && (s'.phase.Handed? ==>
                  && s'.sent == s.sent + (if s.phase.Fetched? then [Sent(s.phase.item, s.phase.msg)] else [])
                  && Step(s', Pop) == s'.(phase := Idle, t := s'.t.(headPopped := true)))
  {
    assert s.sent + [] == s.sent;
    HeldUntilPop(s, Step(s, Reset), es);
    var s' := After(Step(s, Reset), es);
    assert s'.fates + [] == s'.fates;
  }

  /** How often `item` is in the log. */
  function Times(log: seq<Sent>, item: Item): nat
  {
    if log == [] then 0 else Times(Front(log), item) + (if Last(log).item == item then 1 else 0)
  }

  lemma {:induction false} TimesSnoc(log: seq<Sent>, x: Sent, item: Item)
    ensures Times(log + [x], item) == Times(log, item) + (if x.item == item then 1 else 0)
  {
    FrontLast(log, x);
  }

  /** What was sent after the reset that comes now. */
  function SentSinceReset(s: System, es: seq<Event>): seq<Sent>
    requires CanRun(Step(s, Reset), es)
  {
    SentGrows(Step(s, Reset), es);
    After(Step(s, Reset), es).sent[|s.sent|..]
  }

  /** How often the loop still holds this payload unsent. */
  function Held(s: System, k: nat): nat { if s.phase.Fetched? && s.phase.item == Payload(k) then 1 else 0 }

  lemma {:induction false} StepSendsHeld(s: System, e: Event, k: nat, log: seq<Sent>)
    requires Enabled(s, e) && k < |s.fates|
    ensures k < |Step(s, e).fates|
    ensures Times(log + Added(s, e), Payload(k)) + Held(Step(s, e), k) <= Times(log, Payload(k)) + Held(s, k)
  {
    hide Times;
    if e.Send? { TimesSnoc(log, Sent(s.phase.item, s.phase.msg), Payload(k)); } else { assert log + [] == log; }
  }

  lemma {:induction false} LogGrows(s: System, e: Event, from: nat)
    requires Enabled(s, e) && from <= |s.sent|
    ensures from <= |Step(s, e).sent| && Step(s, e).sent[from..] == s.sent[from..] + Added(s, e)
  {
  }

  /** Messages whose fate is settled are sent no more, but for the one that the loop has fetched. */
  lemma {:induction false} SettledIsNotSent(s: System, es: seq<Event>, k: nat, from: nat)
    requires CanRun(s, es) && k < |s.fates| && from <= |s.sent|
    ensures from <= |After(s, es).sent|
    ensures Times(After(s, es).sent[from..], Payload(k)) <= Times(s.sent[from..], Payload(k)) + Held(s, k)
    decreases |es|
  {
    hide Times, Step, Added;
    if es != [] {
      LogGrows(s, es[0], from);
      StepSendsHeld(s, es[0], k, s.sent[from..]);
      SettledIsNotSent(Step(s, es[0]), es[1..], k, from);
    }
  }

  /** The run after a reset at `s` in which the pending `pop()` is followed by one turn of the loop. */
  lemma {:induction false} PopAndSendAgain(s: System) returns (es: seq<Event>)
    requires Inv(s) && s.phase == Handed(Payload(|s.fates|)) && !s.t.headPopped
    ensures CanRun(s, es) && NoReset(es)
    ensures After(s, es).sent == s.sent + [Sent(Payload(|s.fates|), s.t.q[0])]
  {
    assert Meant(s, s.sent[|s.sent| - 1].item, s.sent[|s.sent| - 1].msg);
    var s1 := Step(s, Pop);
    assert s.fates + [] == s.fates;
    es := SendNext(s1);
    Prepend(s, Pop, es);
    es := [Pop] + es;
  }

  /** The log when the window that is open at `s` has come to its `send()`. */
  function SentInWindow(s: System): seq<Sent>
    requires s.phase.InWindow()
  {
    s.sent + if s.phase.Fetched? then [Sent(s.phase.item, s.phase.msg)] else []
  }

  /** A run after a reset in which the front, in the window of `s`, is sent once more after that window. */
  lemma {:induction false} SendAgain(s: System) returns (es: seq<Event>, msg: Message)
    requires Inv(s) && FrontInWindow(s)
    ensures CanRun(Step(s, Reset), es) && NoReset(es)
    ensures After(Step(s, Reset), es).sent == SentInWindow(s) + [Sent(s.phase.item, msg)]
    ensures SentInWindow(s) != [] && Last(SentInWindow(s)).item == s.phase.item
  {
    var r := Step(s, Reset);
    StepKeepsInv(s, Reset);
    if s.phase.Fetched? {
      var h := Step(r, Send);
      StepKeepsInv(r, Send);
      es := PopAndSendAgain(h);
      Prepend(r, Send, es);
      es, msg := [Send] + es, h.t.q[0];
    } else {
      es := PopAndSendAgain(r);
      msg := r.t.q[0];
      assert s.sent + [] == s.sent;
    }
  }

  /** How often the open window itself sends its message. */
  function OwnSend(s: System): nat { if s.phase.Fetched? then 1 else 0 }

  lemma {:induction false} FrontCountsTwice(s: System) returns (es: seq<Event>)
    requires Inv(s) && FrontInWindow(s)
    ensures CanRun(Step(s, Reset), es) && NoReset(es)
    ensures Times(SentSinceReset(s, es), s.phase.item) == OwnSend(s) + 1
  {
    hide CanRun, After;
    var msg;
    es, msg := SendAgain(s);
    var x, log := Sent(s.phase.item, msg), SentSinceReset(s, es);
    if s.phase.Fetched? {
      var own := Sent(s.phase.item, s.phase.msg);
      assert log == [] + [own] + [x];
      TimesSnoc([], own, s.phase.item);
      TimesSnoc([] + [own], x, s.phase.item);
    } else {
      assert log == [] + [x];
      TimesSnoc([], x, s.phase.item);
    }
  }

  lemma {:induction false} EvictedIsNotSentAgain(s: System, es: seq<Event>)
    requires Inv(s) && s.phase.InWindow() && s.phase.item.Payload? && !FrontInWindow(s) && CanRun(Step(s, Reset), es)
    ensures Times(SentSinceReset(s, es), s.phase.item) <= OwnSend(s)
  {
    hide CanRun, After;
    assert s.sent[|s.sent|..] == [];
    SettledIsNotSent(Step(s, Reset), es, s.phase.item.k, |s.sent|);
  }

  /** When a reset comes inside the window of a payload, that payload can be sent again after the window, before the
      next reset, exactly when no push has evicted it yet: again after `send()`, or twice when the reset came first. */
  lemma {:induction false} ResetInWindowResendsIff(s: System)
    requires Reachable(s) && s.phase.InWindow() && s.phase.item.Payload?
    ensures (exists es :: CanRun(Step(s, Reset), es) && NoReset(es) && Times(SentSinceReset(s, es), s.phase.item) > OwnSend(s))
       <==> s.phase.item.k == |s.fates|
  {
    hide CanRun, After, SentSinceReset, Inv;
    ReachableInv(s);
    if FrontInWindow(s) {
      var es := FrontCountsTwice(s);
    } else {
      forall es | CanRun(Step(s, Reset), es) ensures Times(SentSinceReset(s, es), s.phase.item) <= OwnSend(s) {
        EvictedIsNotSentAgain(s, es);
      }
    }
  }

  lemma {:induction false} NoResetIsClean(s: System, es: seq<Event>)
    requires CanRun(s, es) && NoReset(es)
    ensures CleanRun(s, es)
    decreases |es|
  {
    if es != [] { NoResetIsClean(Step(s, es[0]), es[1..]); }
  }

  lemma {:induction false} TwiceIsNotInOrder(log: seq<Sent>, x: Sent)
    requires log != [] && Last(log).item == x.item && x.item.Payload?
    ensures !Increasing(PayloadsOf(log + [x]))
  {
    PayloadsSnoc(log, x);
    var ks := PayloadsOf(log + [x]);
    assert ks[|ks| - 2] == ks[|ks| - 1];
  }

  /** While payloads were sent in order so far, a reset keeps them in order whatever happens until the next one
      exactly when the front of the queue is not in the window. */
  lemma {:induction false} ResetKeepsOrderIff(qSize: int32, head: Message, before: seq<Event>)
    requires CanRun(Initial(qSize, head), before) && CleanRun(Initial(qSize, head), before)
    ensures var s := After(Initial(qSize, head), before);
            (forall es :: CanRun(Step(s, Reset), es) && NoReset(es)
                          ==> Increasing(PayloadsOf(After(Step(s, Reset), es).sent)))
              <==> !FrontInWindow(s)
  {
    var s0, s := Initial(qSize, head), After(Initial(qSize, head), before);
    InitialInv(qSize, head);
    RunKeepsInv(s0, before);
    CleanRunKeepsOrder(s0, before, 0);
    var r := Step(s, Reset);
    StepKeepsInv(s, Reset);
    if FrontInWindow(s) {
      var es, msg := SendAgain(s);
      TwiceIsNotInOrder(SentInWindow(s), Sent(s.phase.item, msg));
    } else {
      assert s.sent[0..] == s.sent == r.sent;
      StepKeepsOrder(s, Reset, s.sent);
      forall es | CanRun(r, es) && NoReset(es) ensures Increasing(PayloadsOf(After(r, es).sent)) {
        NoResetIsClean(r, es);
        CleanRunKeepsOrder(r, es, 0);
        assert After(r, es).sent[0..] == After(r, es).sent;
      }
    }
  }

  /** Nothing is ever sent out of order: at worst payloads repeat. */
  ghost predicate WeaklyInOrder(log: seq<Sent>)
  {
    forall i, j :: 0 <= i < j < |log| && log[i].item.Payload? && log[j].item.Payload? ==> log[i].item.k <= log[j].item.k
  }

  lemma {:induction false} RunKeepsWeakOrder(s: System, es: seq<Event>)
    requires Inv(s) && CanRun(s, es) && WeaklyInOrder(s.sent)
    ensures WeaklyInOrder(After(s, es).sent)
    decreases |es|
  {
    if es != [] {
      StepKeepsInv(s, es[0]);
      RunKeepsWeakOrder(Step(s, es[0]), es[1..]);
    }
  }

  lemma {:induction false} NeverOutOfOrder(s: System)
    requires Reachable(s)
    ensures WeaklyInOrder(s.sent)
  {
    var qSize: int32, head, es :| CanRun(Initial(qSize, head), es) && s == After(Initial(qSize, head), es);
    InitialInv(qSize, head);
    RunKeepsWeakOrder(Initial(qSize, head), es);
  }

  // ----- after a reset

  /** Since the reset nothing was sent, or the head message and then only payloads. */
  ghost predicate HeadFirst(s: System, log: seq<Sent>)
  {
    if log == [] then !s.t.headPopped && !s.phase.Handed? && (s.phase.Fetched? ==> s.phase.item == Head)
    else
      && log[0].item == Head
      && (forall i :: 1 <= i < |log| ==> log[i].item.Payload?)
      && (!s.t.headPopped ==> |log| == 1 && s.phase == Handed(Head))
  }

  lemma {:induction false} StepKeepsHeadFirst(s: System, e: Event, log: seq<Sent>)
    requires Inv(s) && Enabled(s, e) && HeadFirst(s, log) && !e.Reset?
    ensures HeadFirst(Step(s, e), log + Added(s, e))
  {
  }

  lemma {:induction false} RunKeepsHeadFirst(s: System, es: seq<Event>, from: nat)
    requires Inv(s) && CanRun(s, es) && NoReset(es) && from <= |s.sent|
    requires HeadFirst(s, s.sent[from..]) && InOrder(s, s.sent[from..])
    ensures from <= |After(s, es).sent|
    ensures HeadFirst(After(s, es), After(s, es).sent[from..]) && InOrder(After(s, es), After(s, es).sent[from..])
    decreases |es|
  {
    hide Inv, InOrder, HeadFirst, Step, Added;
    if es != [] {
      StepKeepsInv(s, es[0]);
      StepKeepsHeadFirst(s, es[0], s.sent[from..]);
      StepKeepsOrder(s, es[0], s.sent[from..]);
      LogGrows(s, es[0], from);
      RunKeepsHeadFirst(Step(s, es[0]), es[1..], from);
    }
  }

  /** The head message first and once, and then payloads in the order they were pushed. */
  ghost predicate HeadThenPayloads(head: Message, log: seq<Sent>)
  {
    && (log != [] ==> log[0] == Sent(Head, head))
    && (forall i :: 1 <= i < |log| ==> log[i].item.Payload?)
    && Increasing(PayloadsOf(log))
  }

  /** With room for nothing, what follows a reset between `send()` and `pop()` sends nothing at all. */
  ghost predicate Silent(s: System)
  {
    Limit(s.t.qSize) == 0 && if s.t.headPopped then s.phase.Idle? else s.phase.Handed?
  }

  lemma {:induction false} SilentSendsNothing(s: System, es: seq<Event>)
    requires Inv(s) && Silent(s) && CanRun(s, es) && NoReset(es)
    ensures After(s, es).sent == s.sent
    decreases |es|
  {
    if es != [] {
      StepKeepsInv(s, es[0]);
      SilentSendsNothing(Step(s, es[0]), es[1..]);
    }
  }

  /** The states in which a reset does what it is for. */
  predicate ResetWorks(s: System)
  {
    !s.phase.InWindow() || (s.phase.Fetched? && s.phase.item == Head) || (s.phase.Handed? && Limit(s.t.qSize) == 0)
  }

  /** After a reset in such a state, and until the next one, the head message is sent first and once, and after it
      payloads in the order they were pushed. */
  lemma {:induction false} HeadThenPayloadsAfterReset(s: System, es: seq<Event>)
    requires Reachable(s) && ResetWorks(s)
    requires CanRun(Step(s, Reset), es) && NoReset(es)
    ensures HeadThenPayloads(s.t.head, SentSinceReset(s, es))
  {
    ReachableInv(s);
    var r := Step(s, Reset);
    StepKeepsInv(s, Reset);
    var s', log := After(r, es), SentSinceReset(s, es);
    if s.phase.Handed? {
      SilentSendsNothing(r, es);
    } else {
      assert r.sent[|s.sent|..] == [];
      RunKeepsHeadFirst(r, es, |s.sent|);
      RunKeepsInv(r, es);
      HeadNeverChanges(r, es);
      if log != [] { assert log[0] == s'.sent[|s.sent|]; }
    }
  }

  /** In all other states a payload can come first: the one fetched, or one pushed after the `pop()`. */
  lemma {:induction false} PayloadFirst(s: System) returns (es: seq<Event>)
    requires Inv(s) && !ResetWorks(s)
    ensures CanRun(Step(s, Reset), es) && NoReset(es)
    ensures SentSinceReset(s, es) != [] && SentSinceReset(s, es)[0].item.Payload?
  {
    var r := Step(s, Reset);
    if s.phase.Fetched? {
      es := [Send];
      assert After(r, es) == Step(r, Send);
    } else {
      var s1 := Step(r, Pop);
      var s2 := Step(s1, Push(s.t.head));
      es := SendNext(s2);
      Prepend(s1, Push(s.t.head), es);
      Prepend(r, Pop, [Push(s.t.head)] + es);
      es := [Pop] + ([Push(s.t.head)] + es);
    }
  }

  /** A reset is followed by the head message, once, and payloads in order, whatever happens until the next reset,
      exactly when it comes outside a window, before the head message in the loop's hands is sent, or to a queue
      that has room for nothing. */
  lemma {:induction false} ResetWorksIff(s: System)
    requires Reachable(s)
    ensures (forall es :: CanRun(Step(s, Reset), es) && NoReset(es) ==> HeadThenPayloads(s.t.head, SentSinceReset(s, es)))
       <==> ResetWorks(s)
  {
    ReachableInv(s);
    if ResetWorks(s) {
      forall es | CanRun(Step(s, Reset), es) && NoReset(es) ensures HeadThenPayloads(s.t.head, SentSinceReset(s, es)) {
        HeadThenPayloadsAfterReset(s, es);
      }
    } else {
      var es := PayloadFirst(s);
      assert !HeadThenPayloads(s.t.head, SentSinceReset(s, es));
    }
  }

  /** Without the head message in the loop's hands, and with it marked as sent now or at the next `pop()`, it is
      not sent before the next reset. */
  ghost predicate HeadIsOver(s: System)
  {
    (s.t.headPopped && !(s.phase.Fetched? && s.phase.item == Head)) || s.phase.Handed? || (s.phase.Fetched? && s.phase.item.Payload?)
  }

  lemma {:induction false} OverIsNotSent(s: System, es: seq<Event>, from: nat)
    requires Inv(s) && HeadIsOver(s) && CanRun(s, es) && NoReset(es) && from <= |s.sent|
    ensures from <= |After(s, es).sent|
    ensures Times(After(s, es).sent[from..], Head) == Times(s.sent[from..], Head)
    decreases |es|
  {
    hide Inv, HeadIsOver, Times, Step, Added;
    if es != [] {
      StepKeepsInv(s, es[0]);
      StepKeepsOver(s, es[0], s.sent[from..]);
      LogGrows(s, es[0], from);
      OverIsNotSent(Step(s, es[0]), es[1..], from);
    }
  }

  lemma {:induction false} StepKeepsOver(s: System, e: Event, log: seq<Sent>)
    requires Inv(s) && HeadIsOver(s) && Enabled(s, e) && !e.Reset?
    ensures HeadIsOver(Step(s, e)) && Times(log + Added(s, e), Head) == Times(log, Head)
  {
    hide Times;
    if e.Send? { TimesSnoc(log, Sent(s.phase.item, s.phase.msg), Head); } else { assert log + [] == log; }
  }

  /** A reset gets the head message sent again, if the loop goes on, exactly when it does not come between `send()`
      and `pop()`, nor between `next()` and `send()` of a payload. */
  lemma {:induction false} HeadIsSentAgainIff(s: System)
    requires Reachable(s)
    ensures (exists es :: CanRun(Step(s, Reset), es) && NoReset(es) && Times(SentSinceReset(s, es), Head) > 0)
       <==> !s.phase.Handed? && !(s.phase.Fetched? && s.phase.item.Payload?)
  {
    hide CanRun, After, SentSinceReset;
    ReachableInv(s);
    StepKeepsInv(s, Reset);
    if HeadIsOver(Step(s, Reset)) {
      forall es | CanRun(Step(s, Reset), es) && NoReset(es) ensures Times(SentSinceReset(s, es), Head) == 0 {
        HeadIsNotSent(s, es);
      }
    } else {
      var es := SendHead(s);
    }
  }

  lemma {:induction false} HeadIsNotSent(s: System, es: seq<Event>)
    requires Inv(Step(s, Reset)) && HeadIsOver(Step(s, Reset)) && CanRun(Step(s, Reset), es) && NoReset(es)
    ensures Times(SentSinceReset(s, es), Head) == 0
  {
    hide CanRun, After;
    assert s.sent[|s.sent|..] == [];
    OverIsNotSent(Step(s, Reset), es, |s.sent|);
  }

  lemma {:induction false} SendHead(s: System) returns (es: seq<Event>)
    requires Inv(Step(s, Reset)) && !HeadIsOver(Step(s, Reset))
    ensures CanRun(Step(s, Reset), es) && NoReset(es) && Times(SentSinceReset(s, es), Head) > 0
  {
    var r := Step(s, Reset);
    es := [Send];
    if r.phase.Fetched? { assert After(r, es) == Step(r, Send); } else { es := SendNext(r); }
    hide CanRun, After, Step, Inv;
    var log := SentSinceReset(s, es);
    assert log == [] + [Last(log)] && Last(log).item == Head;
    TimesSnoc([], Last(log), Head);
  }

  lemma {:induction false} HeadNeverChanges(s: System, es: seq<Event>)
    requires CanRun(s, es)
    ensures After(s, es).t.head == s.t.head && After(s, es).t.qSize == s.t.qSize
    decreases |es|
  {
    if es != [] { HeadNeverChanges(Step(s, es[0]), es[1..]); }
  }
}
