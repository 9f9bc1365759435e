/** The identity server: one goroutine that owns the registry and any number of handlers, which
    share a single unbuffered channel in both directions (src/idserv/main.go, lines 56-84 and
    113-125). A send and a receive on it happen together, between any two goroutines. */
module Rendezvous {

  /** A handler sends its request, receives, and is then done with what it received: the registry
      from the main loop, or the nil that another handler meant as its request. */
  datatype Handler<+T> = Sending | Receiving | GotRegistry(servers: seq<T>) | GotNil

  /** The main loop waits in `select`, or stands at its send. */
  datatype System<+T> = System(replying: bool, registry: seq<T>, handlers: seq<Handler<T>>)

  datatype Step<+T> =
    | Arrive                             // a request datagram starts a handler
    | Register(server: T)                // a registration reaches the main loop
    | Wipe                               // the timer fires
    | Take(h: nat)                       // handler h sends, the main loop receives
    | Reply(h: nat)                      // the main loop sends, handler h receives
    | Pair(sender: nat, receiver: nat)   // handler `sender` sends, handler `receiver` receives

  ghost predicate Enabled<T>(s: System<T>, step: Step<T>) {
    match step
    case Arrive => true
    case Register(_) => !s.replying
    case Wipe => !s.replying
    case Take(h) => !s.replying && h < |s.handlers| && s.handlers[h] == Sending
    case Reply(h) => s.replying && h < |s.handlers| && s.handlers[h] == Receiving
    case Pair(a, b) => a < |s.handlers| && b < |s.handlers| && s.handlers[a] == Sending && s.handlers[b] == Receiving
  }

  ghost function Next<T>(s: System<T>, step: Step<T>): System<T>
    requires Enabled(s, step)
  {
    match step
    case Arrive => s.(handlers := s.handlers + [Sending])
    case Register(server) => s.(registry := s.registry + [server])
    case Wipe => s.(registry := [])
    case Take(h) => s.(replying := true, handlers := s.handlers[h := Receiving])
    case Reply(h) => s.(replying := false, handlers := s.handlers[h := GotRegistry(s.registry)])
    case Pair(a, b) => s.(handlers := s.handlers[a := Receiving][b := GotNil])
  }

  ghost predicate Possible<T>(s: System<T>, steps: seq<Step<T>>)
    decreases |steps|
  {
    steps == [] || (Enabled(s, steps[0]) && Possible(Next(s, steps[0]), steps[1..]))
  }

  ghost function Run<T>(s: System<T>, steps: seq<Step<T>>): System<T>
    requires Possible(s, steps)
    decreases |steps|
  {
    if steps == [] then s else Run(Next(s, steps[0]), steps[1..])
  }

  // ----- counting handlers -----

  ghost function Count<T>(handlers: seq<Handler<T>>, kind: Handler<T> -> bool): nat {
    if handlers == [] then 0 else Count(handlers[1..], kind) + if kind(handlers[0]) then 1 else 0
  }

  ghost predicate IsSending<T>(h: Handler<T>) { h.Sending? }
  ghost predicate IsReceiving<T>(h: Handler<T>) { h.Receiving? }
  ghost predicate HasRegistry<T>(h: Handler<T>) { h.GotRegistry? }
  ghost predicate HasNil<T>(h: Handler<T>) { h.GotNil? }

  lemma {:induction false} CountUpdate<T>(handlers: seq<Handler<T>>, i: nat, v: Handler<T>, kind: Handler<T> -> bool)
    requires i < |handlers|
    ensures Count(handlers[i := v], kind) ==
            Count(handlers, kind) - (if kind(handlers[i]) then 1 else 0) + (if kind(v) then 1 else 0)
  {
    if i > 0 {
      assert handlers[i := v][1..] == handlers[1..][i - 1 := v];
      CountUpdate(handlers[1..], i - 1, v, kind);
    } else {
      assert handlers[i := v][1..] == handlers[1..];
    }
  }

  lemma {:induction false} CountPush<T>(handlers: seq<Handler<T>>, v: Handler<T>, kind: Handler<T> -> bool)
    ensures Count(handlers + [v], kind) == Count(handlers, kind) + if kind(v) then 1 else 0
  {
    if handlers == [] {
      assert handlers + [v] == [v];
      assert [v][1..] == [];
    } else {
      assert (handlers + [v])[1..] == handlers[1..] + [v];
      CountPush(handlers[1..], v, kind);
    }
  }

  lemma {:induction false} CountPositive<T>(handlers: seq<Handler<T>>, kind: Handler<T> -> bool)
    ensures Count(handlers, kind) > 0 <==> exists i :: 0 <= i < |handlers| && kind(handlers[i])
  {
    if handlers == [] {
    } else {
      CountPositive(handlers[1..], kind);
      if exists i :: 0 <= i < |handlers| && kind(handlers[i]) {
        var i :| 0 <= i < |handlers| && kind(handlers[i]);
        if i > 0 { assert handlers[1..][i - 1] == handlers[i]; }
      }
      if Count(handlers[1..], kind) > 0 {
        var i :| 0 <= i < |handlers[1..]| && kind(handlers[1..][i]);
        assert handlers[i + 1] == handlers[1..][i];
      }
    }
  }

  lemma {:induction false} CountOne<T>(handlers: seq<Handler<T>>, kind: Handler<T> -> bool, i: nat, j: nat)
    requires Count(handlers, kind) <= 1 && i < j < |handlers|
    ensures !(kind(handlers[i]) && kind(handlers[j]))
  {
    if i == 0 {
      CountPositive(handlers[1..], kind);
      assert handlers[1..][j - 1] == handlers[j];
    } else {
      CountOne(handlers[1..], kind, i - 1, j - 1);
    }
  }

  // ----- every run -----

  /** The main loop stands at its send exactly while one handler is between its send and its
      receive, and otherwise none is. */
  ghost predicate InStep<T>(s: System<T>) {
    Count(s.handlers, IsReceiving) == if s.replying then 1 else 0
  }

  ghost function Kinds<T>(steps: seq<Step<T>>, kind: Step<T> -> bool): nat {
    if steps == [] then 0 else Kinds(steps[1..], kind) + if kind(steps[0]) then 1 else 0
  }

  ghost predicate IsArrive<T>(step: Step<T>) { step.Arrive? }
  ghost predicate IsTake<T>(step: Step<T>) { step.Take? }
  ghost predicate IsReply<T>(step: Step<T>) { step.Reply? }
  ghost predicate IsPair<T>(step: Step<T>) { step.Pair? }

  lemma StepCounts<T>(s: System<T>, step: Step<T>)
    requires Enabled(s, step) && InStep(s)
    ensures var s' := Next(s, step);
      && InStep(s')
      && Count(s'.handlers, IsSending) == Count(s.handlers, IsSending)
           + (if step.Arrive? then 1 else 0) - (if step.Take? || step.Pair? then 1 else 0)
      && Count(s'.handlers, HasRegistry) == Count(s.handlers, HasRegistry) + (if step.Reply? then 1 else 0)
      && Count(s'.handlers, HasNil) == Count(s.handlers, HasNil) + (if step.Pair? then 1 else 0)
  {
    hide Count;
    match step
    case Arrive =>
      forall kind: Handler<T> -> bool
        ensures Count(s.handlers + [Sending], kind) == Count(s.handlers, kind) + if kind(Sending) then 1 else 0
      {
        CountPush(s.handlers, Sending, kind);
      }
    case Register(_) =>
    case Wipe =>
    case Take(h) =>
      Updated(s.handlers, h, Receiving);
    case Reply(h) =>
      Updated(s.handlers, h, GotRegistry(s.registry));
    case Pair(a, b) =>
      Updated(s.handlers, a, Receiving);
      Updated(s.handlers[a := Receiving], b, GotNil);
  }

  ghost function One<T>(v: Handler<T>, kind: Handler<T> -> bool): int { if kind(v) then 1 else 0 }

  lemma Updated<T>(handlers: seq<Handler<T>>, i: nat, v: Handler<T>)
    requires i < |handlers|
    ensures forall kind :: Count(handlers[i := v], kind) == Count(handlers, kind) - One(handlers[i], kind) + One(v, kind)
  {
    forall kind ensures Count(handlers[i := v], kind) == Count(handlers, kind) - One(handlers[i], kind) + One(v, kind) {
      CountUpdate(handlers, i, v, kind);
    }
  }

  /** Every run, with any number of handlers, registrations and wipes at any time: the main loop
      and the handlers stay in step; a handler has the registry exactly for each reply of the
      main loop, and nil exactly for each request that another handler received in its stead;
      and no request is lost. */
  lemma {:induction false} RunCounts<T>(s: System<T>, steps: seq<Step<T>>)
    requires Possible(s, steps) && InStep(s)
    ensures var r := Run(s, steps);
      && InStep(r)
      && Count(r.handlers, HasRegistry) == Count(s.handlers, HasRegistry) + Kinds(steps, IsReply)
      && Count(r.handlers, HasNil) == Count(s.handlers, HasNil) + Kinds(steps, IsPair)
      && Count(r.handlers, IsSending) + Kinds(steps, IsTake) + Kinds(steps, IsPair) ==
         Count(s.handlers, IsSending) + Kinds(steps, IsArrive)
    decreases |steps|
  {
    hide Count;
    if steps == [] {
    } else {
      StepCounts(s, steps[0]);
      RunCounts(Next(s, steps[0]), steps[1..]);
    }
  }

  /** The send of the main loop always has a partner, and only one. */
  lemma ReplyHasPartner<T>(s: System<T>)
    requires InStep(s) && s.replying
    ensures exists h: nat :: Enabled(s, Reply(h)) && forall k: nat :: Enabled(s, Reply(k)) ==> k == h
  {
    CountPositive(s.handlers, IsReceiving);
    var h: nat :| h < |s.handlers| && IsReceiving(s.handlers[h]);
    assert Enabled(s, Reply(h));
    forall k: nat | Enabled(s, Reply(k)) ensures k == h {
      if k < h { CountOne(s.handlers, IsReceiving, k, h); }
      if h < k { CountOne(s.handlers, IsReceiving, h, k); }
    }
  }

  // ----- every request is answered -----

  ghost predicate OnChannel<T>(step: Step<T>) { step.Take? || step.Reply? || step.Pair? }

  ghost function Unanswered<T>(s: System<T>): nat {
    2 * Count(s.handlers, IsSending) + Count(s.handlers, IsReceiving)
  }

  /** As long as a handler is not done, the channel is not stuck. */
  lemma NeverStuck<T>(s: System<T>)
    requires InStep(s) && Unanswered(s) > 0
    ensures exists step :: OnChannel(step) && Enabled(s, step)
  {
    CountPositive(s.handlers, IsSending);
    if s.replying {
      ReplyHasPartner(s);
      var h: nat :| Enabled(s, Reply(h));
      assert OnChannel<T>(Reply(h));
    } else {
      var h: nat :| h < |s.handlers| && IsSending(s.handlers[h]);
      assert Enabled(s, Take(h)) && OnChannel<T>(Take(h));
    }
  }

  lemma ChannelStepsFinish<T>(s: System<T>, step: Step<T>)
    requires InStep(s) && Enabled(s, step) && OnChannel(step)
    ensures Unanswered(Next(s, step)) < Unanswered(s)
  {
    StepCounts(s, step);
  }

  /** Whatever pairs the scheduler forms, after at most two channel steps for each request that
      waits all handlers are done, and the main loop is back in its `select`. */
  lemma {:induction false} AllAnswered<T>(s: System<T>, steps: seq<Step<T>>)
    requires InStep(s) && Possible(s, steps) && forall i :: 0 <= i < |steps| ==> OnChannel(steps[i])
    ensures |steps| + Unanswered(Run(s, steps)) <= Unanswered(s)
    ensures (forall step :: OnChannel(step) ==> !Enabled(Run(s, steps), step)) ==>
      Unanswered(Run(s, steps)) == 0 && !Run(s, steps).replying
    decreases |steps|
  {
    hide Count;
    if steps == [] {
      if Unanswered(s) > 0 { NeverStuck(s); }
    } else {
      ChannelStepsFinish(s, steps[0]);
      StepCounts(s, steps[0]);
      AllAnswered(Next(s, steps[0]), steps[1..]);
    }
  }

  // ----- where an answer comes from -----

  ghost predicate Waiting<T>(h: Handler<T>) { h.Sending? || h.Receiving? }

  /** At some point of the run the main loop gave handler h the registry as it stood then. */
  ghost predicate GivenBy<T>(s: System<T>, steps: seq<Step<T>>, h: nat, servers: seq<T>)
    requires Possible(s, steps)
    decreases |steps|
  {
    steps != [] && ((steps[0] == Reply(h) && servers == s.registry) || GivenBy(Next(s, steps[0]), steps[1..], h, servers))
  }

  /** At some point of the run handler h received the request of another handler. */
  ghost predicate CrossedWith<T>(steps: seq<Step<T>>, h: nat, other: nat) {
    exists i :: 0 <= i < |steps| && steps[i] == Pair(other, h)
  }

  lemma {:induction false} AnswerKept<T>(s: System<T>, steps: seq<Step<T>>, h: nat)
    requires Possible(s, steps) && h < |s.handlers| && !Waiting(s.handlers[h])
    ensures h < |Run(s, steps).handlers| && Run(s, steps).handlers[h] == s.handlers[h]
    decreases |steps|
  {
    if steps == [] {
    } else {
      AnswerKept(Next(s, steps[0]), steps[1..], h);
    }
  }

  lemma CrossedLater<T>(steps: seq<Step<T>>, h: nat, other: nat)
    requires steps != [] && CrossedWith(steps[1..], h, other)
    ensures CrossedWith(steps, h, other)
  {
    var i :| 0 <= i < |steps[1..]| && steps[1..][i] == Pair(other, h);
    assert steps[i + 1] == Pair(other, h);
  }

  lemma {:induction false} WaitingHaveOrigin<T>(s: System<T>, steps: seq<Step<T>>, h: nat)
    requires Possible(s, steps) && h < |s.handlers| && Waiting(s.handlers[h])
    ensures h < |Run(s, steps).handlers|
    ensures var v := Run(s, steps).handlers[h]; v.GotRegistry? ==> GivenBy(s, steps, h, v.servers)
    ensures Run(s, steps).handlers[h].GotNil? ==> exists other: nat :: other != h && CrossedWith(steps, h, other)
    decreases |steps|
  {
    if steps == [] {
    } else {
      var next := Next(s, steps[0]);
      if Waiting(next.handlers[h]) {
        WaitingHaveOrigin(next, steps[1..], h);
        if Run(s, steps).handlers[h].GotNil? {
          var other: nat :| other != h && CrossedWith(steps[1..], h, other);
          CrossedLater(steps, h, other);
        }
      } else {
        AnswerKept(next, steps[1..], h);
        if next.handlers[h].GotNil? {
          assert steps[0] == Pair(steps[0].sender, h);
          assert CrossedWith(steps, h, steps[0].sender);
        }
      }
    }
  }

  /** Over any run, for every handler that waits at its start or arrives in it: one that ends with
      a registry was given it by the main loop, as the registry stood at that moment; one that
      ends with nil crossed with another handler. */
  lemma {:induction false} AnswersHaveOrigin<T>(s: System<T>, steps: seq<Step<T>>, h: nat)
    requires Possible(s, steps) && h < |Run(s, steps).handlers|
    requires h < |s.handlers| ==> Waiting(s.handlers[h])
    ensures var v := Run(s, steps).handlers[h]; v.GotRegistry? ==> GivenBy(s, steps, h, v.servers)
    ensures Run(s, steps).handlers[h].GotNil? ==> exists other: nat :: other != h && CrossedWith(steps, h, other)
    decreases |steps|
  {
    if h < |s.handlers| {
      WaitingHaveOrigin(s, steps, h);
    } else {
      AnswersHaveOrigin(Next(s, steps[0]), steps[1..], h);
      if Run(s, steps).handlers[h].GotNil? {
        var other: nat :| other != h && CrossedWith(steps[1..], h, other);
        CrossedLater(steps, h, other);
      }
    }
  }

  // ----- from the start of the identity server -----

  /** No registration and no request yet. */
  function Start<T>(): System<T> { System(false, [], []) }

  lemma StartInStep<T>()
    ensures InStep(Start<T>())
  {
  }

  // ----- what the registry holds, from the steps alone -----

  ghost predicate IsRegister<T>(step: Step<T>) { step.Register? }

  /** The servers that register, in order. */
  function Registered<T>(steps: seq<Step<T>>): seq<T> {
    if steps == [] then []
    else if steps[0].Register? then [steps[0].server] + Registered(steps[1..])
    else Registered(steps[1..])
  }

  /** As many as there are registrations, and in the place of each the server that it names. */
  lemma {:induction false} RegisteredAt<T>(steps: seq<Step<T>>, i: nat)
    requires i < |steps| && steps[i].Register?
    ensures |Registered(steps)| == Kinds(steps, IsRegister)
    ensures Kinds(steps[..i], IsRegister) < |Registered(steps)|
    ensures Registered(steps)[Kinds(steps[..i], IsRegister)] == steps[i].server
  {
    RegisteredCount(steps);
    if i == 0 {
    } else {
      assert steps[..i][1..] == steps[1..][..i - 1];
      RegisteredAt(steps[1..], i - 1);
    }
  }

  lemma {:induction false} RegisteredCount<T>(steps: seq<Step<T>>)
    ensures |Registered(steps)| == Kinds(steps, IsRegister)
  {
    if steps == [] {
    } else {
      RegisteredCount(steps[1..]);
    }
  }

  /** Where the last wipe ends, or the start if there is none. */
  function AfterWipe<T>(steps: seq<Step<T>>): (k: nat)
    ensures k <= |steps|
    ensures k > 0 ==> steps[k - 1].Wipe?
    ensures forall i :: k <= i < |steps| ==> !steps[i].Wipe?
  {
    if steps == [] then 0
    else
      var k := AfterWipe(steps[1..]);
      if k > 0 then k + 1 else if steps[0].Wipe? then 1 else 0
  }

  /** The registry after a run. */
  lemma {:induction false} RunRegistry<T>(s: System<T>, steps: seq<Step<T>>)
    requires Possible(s, steps)
    ensures var k := AfterWipe(steps);
      Run(s, steps).registry == if k > 0 then Registered(steps[k..]) else s.registry + Registered(steps)
    decreases |steps|
  {
    if steps == [] {
    } else {
      var next := Next(s, steps[0]);
      RunRegistry(next, steps[1..]);
      var k := AfterWipe(steps[1..]);
      if k > 0 {
        assert steps[1..][k..] == steps[k + 1..];
      } else if steps[0].Wipe? {
        assert Run(s, steps).registry == [] + Registered(steps[1..]);
      } else if steps[0].Register? {
        assert Run(s, steps).registry == s.registry + [steps[0].server] + Registered(steps[1..]);
      }
    }
  }

  /** What a handler was given is the registry at one of its replies. */
  lemma {:induction false} GivenAt<T>(s: System<T>, steps: seq<Step<T>>, h: nat, servers: seq<T>) returns (i: nat)
    requires Possible(s, steps) && GivenBy(s, steps, h, servers)
    ensures i < |steps| && steps[i] == Reply(h)
    ensures Possible(s, steps[..i]) && servers == Run(s, steps[..i]).registry
    decreases |steps|
  {
    if steps[0] == Reply(h) && servers == s.registry {
      i := 0;
    } else {
      i := GivenAt(Next(s, steps[0]), steps[1..], h, servers);
      i := i + 1;
      assert steps[..i][1..] == steps[1..][..i - 1];
    }
  }

  /** A handler that ends with a registry was answered at some point of the run, with exactly the
      servers that had registered since the last wipe before that point, in their order. */
  ghost predicate GivenRegistrations<T>(steps: seq<Step<T>>, h: nat, servers: seq<T>) {
    exists i :: 0 <= i < |steps| && steps[i] == Reply(h) && servers == Registered(steps[..i][AfterWipe(steps[..i])..])
  }

  lemma AnswerIsRegistry<T>(steps: seq<Step<T>>, h: nat)
    requires Possible(Start<T>(), steps) && h < |Run(Start<T>(), steps).handlers|
    requires Run(Start<T>(), steps).handlers[h].GotRegistry?
    ensures GivenRegistrations(steps, h, Run(Start<T>(), steps).handlers[h].servers)
  {
    var servers := Run(Start<T>(), steps).handlers[h].servers;
    AnswersHaveOrigin(Start<T>(), steps, h);
    var i := GivenAt(Start<T>(), steps, h, servers);
    RunRegistry(Start<T>(), steps[..i]);
    if AfterWipe(steps[..i]) == 0 {
      assert steps[..i][0..] == steps[..i];
      assert [] + Registered(steps[..i]) == Registered(steps[..i]);
    }
  }

  /** Every run of the identity server: the main loop and the handlers stay in step, replies and
      crossings account for every answer, and every registry that is given holds exactly the
      registrations since the last wipe. */
  lemma ServerRuns<T>(steps: seq<Step<T>>)
    requires Possible(Start<T>(), steps)
    ensures var r := Run(Start<T>(), steps);
      && InStep(r)
      && Count(r.handlers, HasRegistry) == Kinds(steps, IsReply)
      && Count(r.handlers, HasNil) == Kinds(steps, IsPair)
      && Count(r.handlers, IsSending) + Kinds(steps, IsTake) + Kinds(steps, IsPair) == Kinds(steps, IsArrive)
    ensures var r := Run(Start<T>(), steps);
      forall h: nat :: h < |r.handlers| ==>
        (r.handlers[h].GotRegistry? ==> GivenRegistrations(steps, h, r.handlers[h].servers))
        && (r.handlers[h].GotNil? ==> exists other: nat :: other != h && CrossedWith(steps, h, other))
  {
    StartInStep<T>();
    RunCounts(Start<T>(), steps);
    var r := Run(Start<T>(), steps);
    forall h: nat | h < |r.handlers|
      ensures r.handlers[h].GotRegistry? ==> GivenRegistrations(steps, h, r.handlers[h].servers)
      ensures r.handlers[h].GotNil? ==> exists other: nat :: other != h && CrossedWith(steps, h, other)
    {
      AnswersHaveOrigin(Start<T>(), steps, h);
      if r.handlers[h].GotRegistry? { AnswerIsRegistry(steps, h); }
    }
  }
}
