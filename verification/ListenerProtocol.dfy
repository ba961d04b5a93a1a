/** One listener queue between the dispatcher and the thread of a subscriber or a service server, step
    by locked step. */
module ListenerProtocol {
  import opened Wrappers
  import opened History
  import opened Queues

  /** Where the thread stands: `empty()` returned false, `next()` returned the k-th message dispatched,
      the callback is over. */
  datatype Phase = Idle | Checked | Fetched(k: nat, msg: Message) | Called(k: nat)

  /** A response pushed for the k-th message dispatched. */
  datatype Response = Response(k: nat, msg: Message)

  /** The queue, the thread, the talker queue responses go to, and the history. */
  datatype System = System(l: Listener, phase: Phase, service: string, talker: Talker,
                           dispatched: seq<Message>, fates: seq<Fate>, delivered: seq<nat>, responses: seq<Response>, broken: bool)

  /** A subscriber's callback gives no response (`None`); a service's gives one, or throws (`None`). */
  datatype Event = Dispatch(m: Message) | Check | Fetch | Callback(outcome: Option<string>) | Pop

  predicate Enabled(s: System, e: Event)
  {
    match e
    case Dispatch(_) => true
    case Check => s.phase.Idle?
    case Fetch => s.phase.Checked?
    case Callback(_) => s.phase.Fetched?
    case Pop => s.phase.Called?
  }

  /** The response carries the id of the request. */
  function ResponseTo(service: string, request: Message, payload: string): Message
  {
    Message("service_response", service, request.id, payload)
  }

  function Step(s: System, e: Event): System
    requires Enabled(s, e)
  {
    match e
    case Dispatch(m) =>
      var l' := s.l.Push(m);
      s.(l := l', dispatched := s.dispatched + [m], fates := s.fates + Repeat(Evicted, |s.l.q| + 1 - |l'.q|))
    case Check => if s.l.Empty() then s else s.(phase := Checked)
    case Fetch =>
      if s.l.Empty() then s.(broken := true, phase := Idle)
      else s.(phase := Fetched(|s.fates|, s.l.Next()))
    case Callback(outcome) =>
      var called := s.(phase := Called(s.phase.k), delivered := s.delivered + [s.phase.k]);
      if outcome.None? then called
      else
        var r := ResponseTo(s.service, s.phase.msg, outcome.value);
        called.(talker := s.talker.Push(r), responses := s.responses + [Response(s.phase.k, r)])
    case Pop =>
      if s.l.Empty() then s.(broken := true, phase := Idle)
      else s.(l := s.l.Pop(), phase := Idle, fates := s.fates + [Popped])
  }

  function Initial(qSize: int32, service: string, talker: Talker): System
  {
    System(Listener(qSize, []), Idle, service, talker, [], [], [], [], false)
  }

  predicate CanRun(s: System, es: seq<Event>)
    decreases |es|
  {
    es == [] || (Enabled(s, es[0]) && CanRun(Step(s, es[0]), es[1..]))
  }

  function After(s: System, es: seq<Event>): System
    requires CanRun(s, es)
    decreases |es|
  {
    if es == [] then s else After(Step(s, es[0]), es[1..])
  }

  // ----- what every step keeps

  /** Every response answers a delivered message, with its id, and no message has two. */
  ghost predicate Answered(s: System)
  {
    && (forall i :: 0 <= i < |s.responses| ==>
          && s.responses[i].k in s.delivered && s.responses[i].k < |s.dispatched|
          && s.responses[i].msg.op == "service_response" && s.responses[i].msg.name == s.service
          && s.responses[i].msg.id == s.dispatched[s.responses[i].k].id)
    && (forall i, j :: 0 <= i < j < |s.responses| ==> s.responses[i].k < s.responses[j].k)
  }

  ghost predicate Inv(s: System)
  {
    && !s.broken
    && |s.fates| <= |s.dispatched| && s.l.q == s.dispatched[|s.fates|..]
    && |s.l.q| <= Limit(s.l.qSize)
    && (!s.phase.Idle? ==> !s.l.Empty())
    && (s.phase.Fetched? ==> s.phase.k <= |s.fates| && s.phase.k < |s.dispatched| && s.phase.msg == s.dispatched[s.phase.k])
    && (s.phase.Called? ==> s.phase.k <= |s.fates| && s.delivered != [] && Last(s.delivered) == s.phase.k)
    && (s.phase.Fetched? || s.phase.Called? ==> forall i :: s.phase.k <= i < |s.fates| ==> s.fates[i] == Evicted)
    && Increasing(s.delivered)
    && AllBelow(s.delivered, if s.phase.Fetched? then s.phase.k else if s.phase.Called? then s.phase.k + 1 else |s.fates|)
    && Answered(s)
  }

  lemma {:induction false} InitialInv(qSize: int32, service: string, talker: Talker)
    ensures Inv(Initial(qSize, service, talker))
  {
  }

  lemma {:induction false} DispatchedQueue(s: System, m: Message)
    requires |s.fates| <= |s.dispatched| && s.l.q == s.dispatched[|s.fates|..] && |s.l.q| <= Limit(s.l.qSize)
    ensures var s' := Step(s, Dispatch(m));
            && |s'.fates| <= |s'.dispatched| && s'.l.q == s'.dispatched[|s'.fates|..]
            && |s'.l.q| <= Limit(s.l.qSize) && (s.l.q != [] ==> s'.l.q != [])
  {
    NewestIsSuffix(s.dispatched, |s.fates|, m, Limit(s.l.qSize));
  }

  lemma {:induction false} CallbackAnswers(s: System, outcome: Option<string>)
    requires Inv(s) && s.phase.Fetched?
    ensures Answered(Step(s, Callback(outcome)))
  {
    var s' := Step(s, Callback(outcome));
    assert forall k :: k in s.delivered ==> k in s'.delivered;
    assert s'.delivered[|s.delivered|] == s.phase.k;
    forall i | 0 <= i < |s.responses| ensures s.responses[i].k < s.phase.k {
      assert s.responses[i].k in s.delivered;
    }
  }

  lemma {:induction false} StepKeepsInv(s: System, e: Event)
    requires Inv(s) && Enabled(s, e)
    ensures Inv(Step(s, e))
  {
    match e {
      case Dispatch(m) => DispatchedQueue(s, m);
      case Check =>
      case Fetch =>
      case Callback(outcome) => CallbackAnswers(s, outcome);
      case Pop => assert s.l.q[1..] == s.dispatched[|s.fates| + 1..];
    }
  }

  lemma {:induction false} RunKeepsInv(s: System, es: seq<Event>)
    requires Inv(s) && CanRun(s, es)
    ensures Inv(After(s, es))
    decreases |es|
  {
    if es != [] {
      StepKeepsInv(s, es[0]);
      RunKeepsInv(Step(s, es[0]), es[1..]);
    }
  }

  ghost predicate Reachable(s: System)
  {
    exists qSize: int32, service, talker, es ::
      CanRun(Initial(qSize, service, talker), es) && s == After(Initial(qSize, service, talker), es)
  }

  lemma {:induction false} ReachableInv(s: System)
    requires Reachable(s)
    ensures Inv(s)
  {
    var qSize: int32, service, talker, es :|
      CanRun(Initial(qSize, service, talker), es) && s == After(Initial(qSize, service, talker), es);
    InitialInv(qSize, service, talker);
    RunKeepsInv(Initial(qSize, service, talker), es);
  }

  // ----- what the threads rely on

  /** No container is accessed empty, the bound holds, each message dispatched has one fate or is queued,
      and the callback sees messages in the order of their dispatch, none twice. */
  lemma {:induction false} DeliveredInOrder(s: System)
    requires Reachable(s)
    ensures !s.broken && |s.l.q| <= Limit(s.l.qSize)
    ensures |s.fates| <= |s.dispatched| && s.dispatched == s.dispatched[..|s.fates|] + s.l.q
    ensures Increasing(s.delivered) && AllBelow(s.delivered, |s.dispatched|)
  {
    ReachableInv(s);
    if s.phase.Called? { assert |s.fates| < |s.dispatched|; }
  }

  /** Each response belongs to a delivered request, bears its id, and is the only one for it. */
  lemma {:induction false} ResponsesMatchRequests(s: System)
    requires Reachable(s)
    ensures Answered(s)
  {
    ReachableInv(s);
  }

  /** `pop()` throws away a message the callback never saw exactly when, since the `next()` before it, the
      message it did see has been evicted. */
  lemma {:induction false} PopLosesIffFrontEvicted(s: System)
    requires Reachable(s) && s.phase.Called?
    ensures s.phase.k <= |s.fates| < |s.dispatched|
    ensures Step(s, Pop).fates == s.fates + [Popped]
    ensures |s.fates| !in s.delivered <==> s.phase.k < |s.fates| && s.fates[s.phase.k] == Evicted
  {
    ReachableInv(s);
    assert s.delivered[|s.delivered| - 1] == s.phase.k;
  }

  /** A dispatch evicts the oldest message when the queue is full, and none otherwise; a negative bound evicts none
      before the queue has nearly 2^64 messages. */
  lemma {:induction false} DispatchEvictsIffFull(s: System, m: Message)
    requires Reachable(s)
    ensures Step(s, Dispatch(m)).dispatched == s.dispatched + [m]
    ensures s.l.qSize >= 0 ==> Step(s, Dispatch(m)).fates == s.fates + (if |s.l.q| == s.l.qSize then [Evicted] else [])
    ensures s.l.qSize < 0 && |s.l.q| < 0xFFFF_FFFF_0000_0000 ==> Step(s, Dispatch(m)).fates == s.fates
  {
    ReachableInv(s);
    if s.l.qSize >= 0 || |s.l.q| < 0xFFFF_FFFF_0000_0000 { NewestDropsOldest(s.l.q, m, s.l.qSize); }
  }

  // ----- nothing queued is passed over

  /** One round of the thread, with this outcome of the callback. */
  function Round(outcome: Option<string>): seq<Event> { [Check, Fetch, Callback(outcome), Pop] }

  /** A round delivers the front of the queue, answers it if the callback gave an answer, and removes it. */
  lemma {:induction false} RoundDelivers(s: System, outcome: Option<string>)
    requires Inv(s) && s.phase.Idle? && s.l.q != []
    ensures CanRun(s, Round(outcome))
    ensures var s' := After(s, Round(outcome));
            && Inv(s') && s'.phase.Idle? && s'.l == s.l.(q := s.l.q[1..]) && s'.dispatched == s.dispatched
            && s'.delivered == s.delivered + [|s.fates|] && s'.fates == s.fates + [Popped]
            && (outcome.None? ==> s'.responses == s.responses && s'.talker == s.talker)
            && (outcome.Some? ==>
                  var r := Message("service_response", s.service, s.l.q[0].id, outcome.value);
                  s'.responses == s.responses + [Response(|s.fates|, r)] && s'.talker == s.talker.Push(r))
  {
    var es := Round(outcome);
    var s1 := Step(s, es[0]);
    var s2 := Step(s1, es[1]);
    var s3 := Step(s2, es[2]);
    var s4 := Step(s3, es[3]);
    Prepend(s3, es[3], []);
    Prepend(s2, es[2], [es[3]] + []);
    Prepend(s1, es[1], [es[2]] + ([es[3]] + []));
    Prepend(s, es[0], [es[1]] + ([es[2]] + ([es[3]] + [])));
    assert es == [es[0]] + ([es[1]] + ([es[2]] + ([es[3]] + [])));
    StepKeepsInv(s, es[0]);
    StepKeepsInv(s1, es[1]);
    StepKeepsInv(s2, es[2]);
    StepKeepsInv(s3, es[3]);
  }

  function Rounds(outcomes: seq<Option<string>>): seq<Event>
  {
    if outcomes == [] then [] else Round(outcomes[0]) + Rounds(outcomes[1..])
  }

  lemma {:induction false} Prepend(s: System, e: Event, es: seq<Event>)
    requires Enabled(s, e) && CanRun(Step(s, e), es)
    ensures CanRun(s, [e] + es) && After(s, [e] + es) == After(Step(s, e), es)
  {
    assert ([e] + es)[1..] == es;
  }

  lemma {:induction false} RunJoined(s: System, a: seq<Event>, b: seq<Event>)
    requires CanRun(s, a) && CanRun(After(s, a), b)
    ensures CanRun(s, a + b) && After(s, a + b) == After(After(s, a), b)
    decreases |a|
  {
    if a == [] {
      assert a + b == b;
    } else {
      assert (a + b)[1..] == a[1..] + b;
      RunJoined(Step(s, a[0]), a[1..], b);
    }
  }

  /** The numbers from `from` on. */
  function From(from: nat, n: nat): seq<nat> { seq(n, i => from + i) }

  /** While nothing new is dispatched, as many rounds as messages queued deliver all of them, in order, and then no more. */
  lemma {:induction false} RoundsDeliverAll(s: System, outcomes: seq<Option<string>>)
    requires Inv(s) && s.phase.Idle? && |outcomes| == |s.l.q|
    ensures CanRun(s, Rounds(outcomes))
    ensures var s' := After(s, Rounds(outcomes));
            s'.l.q == [] && s'.delivered == s.delivered + From(|s.fates|, |s.l.q|)
    decreases |outcomes|
  {
    hide Round, Inv;
    if outcomes != [] {
      RoundDelivers(s, outcomes[0]);
      var s1 := After(s, Round(outcomes[0]));
      RoundsDeliverAll(s1, outcomes[1..]);
      RunJoined(s, Round(outcomes[0]), Rounds(outcomes[1..]));
      assert [|s.fates|] + From(|s1.fates|, |s1.l.q|) == From(|s.fates|, |s.l.q|);
      assert s.delivered + [|s.fates|] + From(|s1.fates|, |s1.l.q|) == s.delivered + ([|s.fates|] + From(|s1.fates|, |s1.l.q|));
    }
  }
}
