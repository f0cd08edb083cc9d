/** DNSResolver, DNSWorker and Watcher (include/crab/network.hxx) as one protocol: the threads that
    own resolvers and the worker thread interleave, every region under a mutex is one step. */
module DnsProtocol {

  datatype Option<+T> = None | Some(value: T)

  type Id = nat  // a resolver
  type Call = nat  // a call of resolve(), numbered over all resolvers

  /** Where the owner thread is: outside resolve(), behind its cancel(), or behind the writes of the
      fields it makes without the mutex. */
  datatype Pc = Calm | Cancelled(call: Call) | Written

  /** `hostName` and `names` carry the number of the call they belong to. While the user handler runs,
      `handling` is what its argument was at the start: the argument is a reference to `names`. */
  datatype Resolver = Resolver(
    pc: Pc,
    resolving: bool,
    hostName: Option<Call>,
    names: Option<Call>,
    handling: Option<Call>)

  datatype State = State(
    resolvers: map<Id, Resolver>,
    workQueue: seq<Id>,
    executing: Option<Id>,
    job: Option<Call>,      // the worker between its two regions, with its copy of the request
    fired: set<Id>,         // watchers in fired_objects of their loop
    triggered: set<Id>,     // watchers in triggered_callables of their loop
    calls: nat)

  datatype Step =
    | CancelCall(r: Id)      // cancel()
    | ResolveCancel(r: Id)   // resolve(): its cancel()
    | ResolveWrite(r: Id)    // resolve(): the fields
    | ResolveEnqueue(r: Id)  // resolve(): the queue
    | Take                   // worker_fun(): the first region
    | Finish                 // worker_fun(): the second region
    | Trigger(r: Id)         // trigger_called_watchers()
    | BeginHandler(r: Id)    // the run loop calls on_handler()
    | EndHandler(r: Id)

  function Init(ids: set<Id>): State {
    State(map r | r in ids :: Resolver(Calm, false, None, None, None), [], None, None, {}, {}, 0)
  }

  predicate Enabled(s: State, step: Step) {
    match step
    case CancelCall(r) => r in s.resolvers && s.resolvers[r].pc.Calm?
    case ResolveCancel(r) => r in s.resolvers && s.resolvers[r].pc.Calm?
    case ResolveWrite(r) => r in s.resolvers && s.resolvers[r].pc.Cancelled?
    case ResolveEnqueue(r) => r in s.resolvers && s.resolvers[r].pc.Written?
    case Take => s.job.None? && s.workQueue != [] && s.workQueue[0] in s.resolvers
                 && s.resolvers[s.workQueue[0]].hostName.Some?
    case Finish => s.job.Some? && (s.executing.Some? ==> s.executing.value in s.resolvers)
    case Trigger(r) => r in s.fired
    case BeginHandler(r) => r in s.triggered && r in s.resolvers && s.resolvers[r].pc.Calm? && s.resolvers[r].handling.None?
                            && s.resolvers[r].names.Some?
    case EndHandler(r) => r in s.resolvers && s.resolvers[r].pc.Calm? && s.resolvers[r].handling.Some?
  }

  function Without(queue: seq<Id>, r: Id): (q: seq<Id>)
    ensures r !in q
    ensures forall x :: x in q <==> x in queue && x != r
    ensures |q| <= |queue|
  {
    if queue == [] then []
    else if queue[0] == r then Without(queue[1..], r)
    else [queue[0]] + Without(queue[1..], r)
  }

  /** cancel(): nothing when not resolving, else the region that takes the resolver out of wherever it is. */
  function Cancel(s: State, r: Id): State
    requires r in s.resolvers
  {
    if !s.resolvers[r].resolving then s
    else s.(executing := if s.executing == Some(r) then None else s.executing,
            workQueue := Without(s.workQueue, r),
            triggered := s.triggered - {r},
            fired := s.fired - {r},
            resolvers := s.resolvers[r := s.resolvers[r].(resolving := false)])
  }

  function Do(s: State, step: Step): State
    requires Enabled(s, step)
  {
    match step
    case CancelCall(r) => Cancel(s, r)
    case ResolveCancel(r) =>
      var c := Cancel(s, r);
      c.(resolvers := c.resolvers[r := c.resolvers[r].(pc := Cancelled(s.calls))], calls := s.calls + 1)
    case ResolveWrite(r) =>
      s.(resolvers := s.resolvers[r := s.resolvers[r].(resolving := true, pc := Written,
                                                       hostName := Some(s.resolvers[r].pc.call))])
    case ResolveEnqueue(r) =>
      s.(resolvers := s.resolvers[r := s.resolvers[r].(pc := Calm)],
         workQueue := if r in s.workQueue then s.workQueue else s.workQueue + [r])
    case Take =>
      var r := s.workQueue[0];
      s.(executing := Some(r), workQueue := s.workQueue[1..], job := s.resolvers[r].hostName,
         resolvers := s.resolvers[r := s.resolvers[r].(hostName := None)])
    case Finish =>
      if s.executing.None? then s.(job := None)
      else
        var r := s.executing.value;
        s.(resolvers := s.resolvers[r := s.resolvers[r].(names := s.job)],
           fired := s.fired + {r}, executing := None, job := None)
    case Trigger(r) => s.(fired := s.fired - {r}, triggered := s.triggered + {r})
    case BeginHandler(r) =>
      s.(triggered := s.triggered - {r},
         resolvers := s.resolvers[r := s.resolvers[r].(resolving := false, handling := s.resolvers[r].names)])
    case EndHandler(r) => s.(resolvers := s.resolvers[r := s.resolvers[r].(handling := None)])
  }

  // ---------- the invariant ----------

  ghost predicate Distinct(queue: seq<Id>) {
    forall i, j :: 0 <= i < j < |queue| ==> queue[i] != queue[j]
  }

  /** The four places a request can be in on its way round. */
  ghost predicate Queued(s: State, r: Id) { r in s.workQueue }
  ghost predicate Executing(s: State, r: Id) { s.executing == Some(r) }
  ghost predicate Fired(s: State, r: Id) { r in s.fired }
  ghost predicate Triggered(s: State, r: Id) { r in s.triggered }

  ghost predicate Somewhere(s: State, r: Id) {
    Queued(s, r) || Executing(s, r) || Fired(s, r) || Triggered(s, r)
  }

  ghost predicate InOnePlaceAtMost(s: State, r: Id) {
    && (Queued(s, r) ==> !Executing(s, r) && !Fired(s, r) && !Triggered(s, r))
    && (Executing(s, r) ==> !Fired(s, r) && !Triggered(s, r))
    && (Fired(s, r) ==> !Triggered(s, r))
  }

  /** `owed` is the call of resolve() the resolver still owes a handler call for. */
  ghost predicate ResolverOk(s: State, r: Id, owed: Option<Call>)
    requires r in s.resolvers
  {
    var o := s.resolvers[r];
    && InOnePlaceAtMost(s, r)
    && (Somewhere(s, r) <==> o.resolving && o.pc.Calm?)
    && (o.pc.Written? ==> o.resolving)
    && (o.pc.Cancelled? ==> !o.resolving)
    && (owed.Some? <==> o.resolving || o.pc.Cancelled?)
    && (owed.Some? ==>
        && (o.pc.Cancelled? ==> o.pc.call == owed.value)
        && (o.pc.Written? || Queued(s, r) ==> o.hostName == owed)
        && (Executing(s, r) ==> s.job == owed)
        && (Fired(s, r) || Triggered(s, r) ==> o.names == owed))
  }

  ghost predicate Inv(s: State, owed: map<Id, Option<Call>>) {
    && owed.Keys == s.resolvers.Keys
    && Distinct(s.workQueue)
    && (s.executing.Some? ==> s.job.Some?)
    && (forall r :: Somewhere(s, r) ==> r in s.resolvers)
    && (forall r :: r in s.resolvers ==> ResolverOk(s, r, owed[r]))
  }

  /** What a step does to the debts. */
  function Owe(s: State, owed: map<Id, Option<Call>>, step: Step): map<Id, Option<Call>> {
    match step
    case CancelCall(r) => owed[r := None]
    case ResolveCancel(r) => owed[r := Some(s.calls)]
    case BeginHandler(r) => owed[r := None]
    case _ => owed
  }

  lemma {:induction false} WithoutIsDistinct(queue: seq<Id>, r: Id)
    requires Distinct(queue)
    ensures Distinct(Without(queue, r))
  {
    if queue != [] {
      var rest := queue[1..];
      WithoutIsDistinct(rest, r);
      forall x | x in rest
        ensures x != queue[0]
      {
        var k :| 0 <= k < |rest| && rest[k] == x;
        assert queue[k + 1] == x;
      }
      var w := Without(rest, r);
      assert forall k :: 0 <= k < |w| ==> w[k] in w && w[k] in rest;
    }
  }

  lemma OwnerStepKeepsInv(s: State, owed: map<Id, Option<Call>>, step: Step)
    requires Inv(s, owed) && Enabled(s, step)
    requires step.CancelCall? || step.ResolveCancel?
    ensures Inv(Do(s, step), Owe(s, owed, step))
  {
    var s', owed' := Do(s, step), Owe(s, owed, step);
    WithoutIsDistinct(s.workQueue, step.r);
    forall r | r in s'.resolvers
      ensures ResolverOk(s', r, owed'[r])
    {
      assert ResolverOk(s, r, owed[r]);
    }
  }

  lemma TakeKeepsInv(s: State, owed: map<Id, Option<Call>>)
    requires Inv(s, owed) && Enabled(s, Take)
    ensures Inv(Do(s, Take), owed)
  {
    var s', front := Do(s, Take), s.workQueue[0];
    assert s.workQueue == [front] + s.workQueue[1..];
    assert front !in s.workQueue[1..];
    forall r | r in s'.resolvers
      ensures ResolverOk(s', r, owed[r])
    {
      assert ResolverOk(s, r, owed[r]);
    }
  }

  lemma StepKeepsInv(s: State, owed: map<Id, Option<Call>>, step: Step)
    requires Inv(s, owed) && Enabled(s, step)
    ensures Inv(Do(s, step), Owe(s, owed, step))
  {
    if step.CancelCall? || step.ResolveCancel? {
      OwnerStepKeepsInv(s, owed, step);
    } else if step.Take? {
      TakeKeepsInv(s, owed);
    } else {
      OtherStepKeepsPlaces(s, owed, step);
      forall r | r in s.resolvers
        ensures ResolverOk(Do(s, step), r, Owe(s, owed, step)[r])
      {
        OtherStepKeepsResolver(s, owed, step, r);
      }
    }
  }

  lemma OtherStepKeepsPlaces(s: State, owed: map<Id, Option<Call>>, step: Step)
    requires Inv(s, owed) && Enabled(s, step) && !step.CancelCall? && !step.ResolveCancel? && !step.Take?
    ensures var s' := Do(s, step);
      && Owe(s, owed, step).Keys == s'.resolvers.Keys == s.resolvers.Keys && Distinct(s'.workQueue)
      && (s'.executing.Some? ==> s'.job.Some?) && forall r :: Somewhere(s', r) ==> r in s'.resolvers
  {
    if step.Trigger? {
      assert Fired(s, step.r);
    }
  }

  lemma OtherStepKeepsResolver(s: State, owed: map<Id, Option<Call>>, step: Step, r: Id)
    requires Inv(s, owed) && Enabled(s, step) && !step.CancelCall? && !step.ResolveCancel? && !step.Take? && r in s.resolvers
    ensures r in Do(s, step).resolvers && r in Owe(s, owed, step)
    ensures ResolverOk(Do(s, step), r, Owe(s, owed, step)[r])
  {
    assert ResolverOk(s, r, owed[r]);
  }

  // ---------- over whole runs ----------

  ghost predicate Run(ids: set<Id>, states: seq<State>, steps: seq<Step>) {
    && |states| == |steps| + 1 && states[0] == Init(ids)
    && forall i :: 0 <= i < |steps| ==> Enabled(states[i], steps[i]) && states[i + 1] == Do(states[i], steps[i])
  }

  /** What the owner does to a request: makes it, withdraws it, or gets the handler call for it. */
  ghost predicate Touches(step: Step, r: Id) {
    (step.CancelCall? || step.ResolveCancel? || step.BeginHandler?) && step.r == r
  }

  /** Call `q`, made by step k, is the last one on the resolver before step i, neither cancelled nor answered. */
  ghost predicate OpenSince(states: seq<State>, steps: seq<Step>, i: nat, r: Id, q: Call, k: int)
    requires |states| == |steps| + 1 && i <= |steps|
  {
    && 0 <= k < i
    && steps[k] == ResolveCancel(r) && states[k].calls == q
    && forall m :: k < m < i ==> !Touches(steps[m], r)
  }

  ghost function Debts(ids: set<Id>, states: seq<State>, steps: seq<Step>, i: nat): map<Id, Option<Call>>
    requires |states| == |steps| + 1 && i <= |steps|
  {
    if i == 0 then map r | r in ids :: None
    else Owe(states[i - 1], Debts(ids, states, steps, i - 1), steps[i - 1])
  }

  lemma {:induction false} RunKeepsInv(ids: set<Id>, states: seq<State>, steps: seq<Step>, i: nat)
    requires Run(ids, states, steps) && i < |states|
    ensures Inv(states[i], Debts(ids, states, steps, i))
  {
    if i > 0 {
      RunKeepsInv(ids, states, steps, i - 1);
      StepKeepsInv(states[i - 1], Debts(ids, states, steps, i - 1), steps[i - 1]);
    }
  }

  lemma {:induction false} DebtIsOpenCall(ids: set<Id>, states: seq<State>, steps: seq<Step>, i: nat, r: Id)
    requires Run(ids, states, steps) && i < |states| && r in ids
    ensures var d := Debts(ids, states, steps, i);
      r in d && (d[r].Some? ==> exists k :: OpenSince(states, steps, i, r, d[r].value, k))
  {
    if i > 0 {
      DebtIsOpenCall(ids, states, steps, i - 1, r);
      DebtInStep(states[i - 1], Debts(ids, states, steps, i - 1), steps[i - 1], r);
      var d, d' := Debts(ids, states, steps, i - 1), Debts(ids, states, steps, i);
      if d'[r].Some? {
        if Touches(steps[i - 1], r) {
          assert OpenSince(states, steps, i, r, d'[r].value, i - 1);
        } else {
          var k :| OpenSince(states, steps, i - 1, r, d[r].value, k);
          assert OpenSince(states, steps, i, r, d'[r].value, k);
        }
      }
    }
  }

  /** Only the owner's steps change what is owed. */
  lemma DebtInStep(s: State, owed: map<Id, Option<Call>>, step: Step, r: Id)
    requires r in owed
    ensures r in Owe(s, owed, step)
    ensures !Touches(step, r) ==> Owe(s, owed, step)[r] == owed[r]
    ensures Touches(step, r) && Owe(s, owed, step)[r].Some? ==> step == ResolveCancel(r) && Owe(s, owed, step)[r] == Some(s.calls)
  {}

  lemma {:induction false} ResolversStay(ids: set<Id>, states: seq<State>, steps: seq<Step>, i: nat)
    requires Run(ids, states, steps) && i < |states|
    ensures states[i].resolvers.Keys == ids
  {
    RunKeepsInv(ids, states, steps, i);
    if i > 0 {
      ResolversStay(ids, states, steps, i - 1);
      RunKeepsInv(ids, states, steps, i - 1);
    }
  }

  /** In every interleaving: a handler call answers the last call of resolve() on its resolver, which
      was neither cancelled nor answered before, and delivers the names of that very call. */
  lemma HandlerAnswersLastResolve(ids: set<Id>, states: seq<State>, steps: seq<Step>, i: nat)
    requires Run(ids, states, steps) && i < |steps| && steps[i].BeginHandler?
    ensures var r := steps[i].r;
      exists q: Call, k: int :: OpenSince(states, steps, i, r, q, k)
                     && states[i].resolvers[r].names == Some(q)
                     && states[i + 1].resolvers[r].handling == Some(q)
  {
    var r := steps[i].r;
    RunKeepsInv(ids, states, steps, i);
    ResolversStay(ids, states, steps, i);
    DebtIsOpenCall(ids, states, steps, i, r);
    var d := Debts(ids, states, steps, i);
    assert Enabled(states[i], steps[i]) && ResolverOk(states[i], r, d[r]);
    var q := d[r].value;
    var k :| OpenSince(states, steps, i, r, q, k);
  }

  /** Hence between two handler calls, and between a cancel() and a handler call, there is a resolve(). */
  lemma NoHandlerWithoutResolve(ids: set<Id>, states: seq<State>, steps: seq<Step>, i: nat, j: nat)
    requires Run(ids, states, steps) && i < j < |steps|
    requires (steps[i].BeginHandler? || steps[i].CancelCall?) && steps[j] == BeginHandler(steps[i].r)
    ensures exists k :: i < k < j && steps[k] == ResolveCancel(steps[i].r)
  {
    HandlerAnswersLastResolve(ids, states, steps, j);
    var q, k :| OpenSince(states, steps, j, steps[j].r, q, k);
    assert Touches(steps[i], steps[i].r);
    assert steps[k] == ResolveCancel(steps[i].r);
  }

  /** No data race: while the owner writes the request fields without the mutex, and from the moment
      the worker has called the watcher, the worker does not touch the resolver. */
  lemma WorkerStaysAway(ids: set<Id>, states: seq<State>, steps: seq<Step>, i: nat, r: Id)
    requires Run(ids, states, steps) && i < |steps| && r in states[i].resolvers
    requires var o := states[i].resolvers[r];
      !o.pc.Calm? || !o.resolving || Fired(states[i], r) || Triggered(states[i], r)
    requires steps[i].Take? || steps[i].Finish?
    ensures r in states[i + 1].resolvers && states[i + 1].resolvers[r] == states[i].resolvers[r]
  {
    RunKeepsInv(ids, states, steps, i);
    assert Enabled(states[i], steps[i]);
    assert ResolverOk(states[i], r, Debts(ids, states, steps, i)[r]);
    if steps[i].Take? {
      assert Queued(states[i], states[i].workQueue[0]);
    }
  }

  /** The reference the user handler holds keeps its value until the handler ends, unless the handler
      itself calls resolve() on the same resolver. */
  lemma {:induction false} NamesStayDuringHandler(ids: set<Id>, states: seq<State>, steps: seq<Step>, i: nat, j: nat)
    requires Run(ids, states, steps) && i < j <= |steps| && steps[i].BeginHandler?
    requires forall k :: i < k < j ==> steps[k] != EndHandler(steps[i].r) && steps[k] != ResolveCancel(steps[i].r)
    ensures steps[i].r in states[j].resolvers
    ensures Undisturbed(states[j].resolvers[steps[i].r])
  {
    if i == j - 1 {
      HandlerBegins(states[i], steps[i].r);
      assert Enabled(states[i], steps[i]) && states[j] == Do(states[i], steps[i]);
    } else {
      NamesStayDuringHandler(ids, states, steps, i, j - 1);
      NamesStayInStep(ids, states, steps, j - 1, steps[i].r);
    }
  }

  /** The resolver of a handler that is running and has not called resolve(). */
  predicate Undisturbed(o: Resolver) {
    o.names == o.handling && o.handling.Some? && o.pc.Calm? && !o.resolving
  }

  lemma HandlerBegins(s: State, r: Id)
    ensures Enabled(s, BeginHandler(r)) ==>
      r in Do(s, BeginHandler(r)).resolvers && Undisturbed(Do(s, BeginHandler(r)).resolvers[r])
  {}

  lemma NamesStayInStep(ids: set<Id>, states: seq<State>, steps: seq<Step>, k: nat, r: Id)
    requires Run(ids, states, steps) && k < |steps| && r in states[k].resolvers && Undisturbed(states[k].resolvers[r])
    requires steps[k] != EndHandler(r) && steps[k] != ResolveCancel(r)
    ensures r in states[k + 1].resolvers && states[k + 1].resolvers[r] == states[k].resolvers[r]
  {
    assert Enabled(states[k], steps[k]) && states[k + 1] == Do(states[k], steps[k]);
    if steps[k].Take? || steps[k].Finish? {
      WorkerStaysAway(ids, states, steps, k, r);
    } else {
      NamesStayOneStep(states[k], steps[k], r);
    }
  }

  lemma NamesStayOneStep(s: State, step: Step, r: Id)
    requires Enabled(s, step) && !step.Take? && !step.Finish?
    requires step != EndHandler(r) && step != ResolveCancel(r)
    requires r in s.resolvers && s.resolvers[r].pc.Calm? && s.resolvers[r].handling.Some? && !s.resolvers[r].resolving
    ensures r in Do(s, step).resolvers && Do(s, step).resolvers[r] == s.resolvers[r]
  {}

  // ---------- what the handler's reference refers to ----------

  /** A call of resolve() whose handler call is still to come. */
  ghost predicate Open(s: State, r: Id)
    requires r in s.resolvers
  {
    s.resolvers[r].resolving || s.resolvers[r].pc.Cancelled?
  }

  /** Calls are numbered in their order; what a handler was called with is older than what is owed after it. */
  ghost predicate NumberOk(o: Resolver, owed: Option<Call>, calls: nat) {
    && (o.handling.Some? ==> o.handling.value < calls)
    && (owed.Some? ==> owed.value < calls)
    && (owed.Some? && o.handling.Some? ==> o.handling.value < owed.value)
  }

  ghost predicate Numbered(s: State, owed: map<Id, Option<Call>>) {
    owed.Keys == s.resolvers.Keys && forall r :: r in s.resolvers ==> NumberOk(s.resolvers[r], owed[r], s.calls)
  }

  lemma StepKeepsNumber(s: State, owed: map<Id, Option<Call>>, step: Step, r: Id)
    requires Inv(s, owed) && Enabled(s, step) && r in s.resolvers && NumberOk(s.resolvers[r], owed[r], s.calls)
    ensures r in Do(s, step).resolvers && r in Owe(s, owed, step)
    ensures NumberOk(Do(s, step).resolvers[r], Owe(s, owed, step)[r], Do(s, step).calls)
  {
    if step == BeginHandler(r) {
      assert Triggered(s, r) && ResolverOk(s, r, owed[r]);
    }
  }

  lemma StepKeepsNumbers(s: State, owed: map<Id, Option<Call>>, step: Step)
    requires Inv(s, owed) && Numbered(s, owed) && Enabled(s, step)
    ensures Numbered(Do(s, step), Owe(s, owed, step))
  {
    StepKeepsInv(s, owed, step);
    forall r | r in s.resolvers
      ensures r in Do(s, step).resolvers && r in Owe(s, owed, step)
      ensures NumberOk(Do(s, step).resolvers[r], Owe(s, owed, step)[r], Do(s, step).calls)
    {
      StepKeepsNumber(s, owed, step, r);
    }
  }

  lemma {:induction false} RunKeepsNumbers(ids: set<Id>, states: seq<State>, steps: seq<Step>, i: nat)
    requires Run(ids, states, steps) && i < |states|
    ensures Numbered(states[i], Debts(ids, states, steps, i))
  {
    if i > 0 {
      RunKeepsInv(ids, states, steps, i - 1);
      RunKeepsNumbers(ids, states, steps, i - 1);
      StepKeepsNumbers(states[i - 1], Debts(ids, states, steps, i - 1), steps[i - 1]);
    }
  }

  /** What is left of resolve(), and the worker. */
  ghost predicate Continues(step: Step, r: Id) {
    step == ResolveWrite(r) || step == ResolveEnqueue(r) || step == Take || step == Finish
  }

  /** The next step of them toward the answer. */
  function Next(s: State, r: Id): Step
    requires r in s.resolvers
  {
    match s.resolvers[r].pc
    case Cancelled(_) => ResolveWrite(r)
    case Written => ResolveEnqueue(r)
    case Calm => if s.job.Some? then Finish else Take
  }

  /** How many of them are left at most: the queue in front of r is drained first. */
  function Distance(s: State, r: Id): nat
    requires r in s.resolvers
  {
    2 * |s.workQueue| + (if s.job.Some? then 1 else 0) + (if s.resolvers[r].pc.Calm? then 0 else if s.resolvers[r].pc.Written? then 3 else 4)
  }

  ghost predicate Answered(s: State, r: Id) { Fired(s, r) || Triggered(s, r) }

  lemma NextIsEnabled(s: State, owed: map<Id, Option<Call>>, r: Id)
    requires Inv(s, owed) && r in s.resolvers && Open(s, r) && !Answered(s, r)
    ensures Enabled(s, Next(s, r)) && Continues(Next(s, r), r)
  {
    assert ResolverOk(s, r, owed[r]);
    if s.resolvers[r].pc.Calm? {
      if s.job.None? {
        var front := s.workQueue[0];
        assert Queued(s, front) && ResolverOk(s, front, owed[front]);
      } else if s.executing.Some? {
        assert Executing(s, s.executing.value);
      }
    }
  }

  lemma NextLeadsOn(s: State, owed: map<Id, Option<Call>>, r: Id)
    requires Inv(s, owed) && r in s.resolvers && Open(s, r) && !Answered(s, r) && Enabled(s, Next(s, r))
    ensures var t := Do(s, Next(s, r));
      r in t.resolvers && Open(t, r) && t.resolvers[r].handling == s.resolvers[r].handling && Distance(t, r) < Distance(s, r)
  {
    assert ResolverOk(s, r, owed[r]);
  }

  lemma RunExtended(ids: set<Id>, states: seq<State>, steps: seq<Step>, step: Step)
    requires Run(ids, states, steps) && Enabled(states[|steps|], step)
    ensures Run(ids, states + [Do(states[|steps|], step)], steps + [step])
  {}

  /** The run goes on as `states1` and `steps1`. */
  ghost predicate IsExtended(ids: set<Id>, states: seq<State>, steps: seq<Step>, states1: seq<State>, steps1: seq<Step>) {
    Run(ids, states1, steps1) && states <= states1 && steps <= steps1
  }

  lemma AnsweredChangesNames(ids: set<Id>, states: seq<State>, steps: seq<Step>, r: Id)
    requires Run(ids, states, steps) && r in states[|steps|].resolvers && Answered(states[|steps|], r)
    requires states[|steps|].resolvers[r].handling.Some?
    ensures var o := states[|steps|].resolvers[r]; o.names.Some? && o.names != o.handling
  {
    RunKeepsInv(ids, states, steps, |steps|);
    RunKeepsNumbers(ids, states, steps, |steps|);
    assert ResolverOk(states[|steps|], r, Debts(ids, states, steps, |steps|)[r]);
  }

  /** A request made while its resolver's handler is running is answered while it is still running. */
  lemma {:induction false} OpenCallChangesNames(ids: set<Id>, states: seq<State>, steps: seq<Step>, r: Id)
    returns (states1: seq<State>, steps1: seq<Step>)
    requires Run(ids, states, steps) && r in states[|steps|].resolvers
    requires states[|steps|].resolvers[r].handling.Some? && Open(states[|steps|], r)
    ensures IsExtended(ids, states, steps, states1, steps1)
    ensures forall k :: |steps| <= k < |steps1| ==> Continues(steps1[k], r)
    ensures r in states1[|steps1|].resolvers
    ensures var o := states1[|steps1|].resolvers[r];
      o.handling == states[|steps|].resolvers[r].handling && o.names.Some? && o.names != o.handling
    decreases Distance(states[|steps|], r)
  {
    var s := states[|steps|];
    if Answered(s, r) {
      AnsweredChangesNames(ids, states, steps, r);
      return states, steps;
    }
    var owed, step := Debts(ids, states, steps, |steps|), Next(s, r);
    RunKeepsInv(ids, states, steps, |steps|);
    NextIsEnabled(s, owed, r);
    NextLeadsOn(s, owed, r);
    RunExtended(ids, states, steps, step);
    states1, steps1 := OpenCallChangesNames(ids, states + [Do(s, step)], steps + [step], r);
    assert steps1[|steps|] == step;
  }

  /** With a resolve() made by the handler the worker overwrites the names it is still reading: every run in which the handler
      of a resolver is running goes on, without the end of the handler, to a state in which the reference the handler holds is to
      other names. If resolve() has been called, no other step of the owner of r is needed than the rest of it. */
  lemma NamesChangeUnderHandler(ids: set<Id>, states: seq<State>, steps: seq<Step>, r: Id)
    returns (states1: seq<State>, steps1: seq<Step>)
    requires Run(ids, states, steps) && r in states[|steps|].resolvers && states[|steps|].resolvers[r].handling.Some?
    ensures IsExtended(ids, states, steps, states1, steps1)
    ensures forall k :: |steps| <= k < |steps1| ==>
      Continues(steps1[k], r) || (k == |steps| && !Open(states[|steps|], r) && steps1[k] == ResolveCancel(r))
    ensures r in states1[|steps1|].resolvers
    ensures var o := states1[|steps1|].resolvers[r];
      o.handling == states[|steps|].resolvers[r].handling && o.names.Some? && o.names != o.handling
  {
    var s := states[|steps|];
    if Open(s, r) {
      states1, steps1 := OpenCallChangesNames(ids, states, steps, r);
    } else {
      RunKeepsInv(ids, states, steps, |steps|);
      assert ResolverOk(s, r, Debts(ids, states, steps, |steps|)[r]);
      var step := ResolveCancel(r);
      RunExtended(ids, states, steps, step);
      states1, steps1 := OpenCallChangesNames(ids, states + [Do(s, step)], steps + [step], r);
      assert steps1[|steps|] == step;
    }
  }

  // ---------- progress ----------

  /** How many steps of the worker and of the run loops are left until every request is answered. */
  ghost function Work(s: State): nat {
    5 * |s.workQueue| + (if s.executing.Some? then 3 else 0) + (if s.job.Some? then 1 else 0) + 2 * |s.fired| + |s.triggered|
  }

  ghost predicate Works(step: Step) {
    step.Take? || step.Finish? || step.Trigger? || step.BeginHandler?
  }

  lemma WorkShrinks(s: State, owed: map<Id, Option<Call>>, step: Step)
    requires Inv(s, owed) && Enabled(s, step) && Works(step)
    ensures Work(Do(s, step)) < Work(s)
  {
    match step {
      case Take =>
        assert Queued(s, s.workQueue[0]);
        assert s.executing.None?;
      case Finish =>
        if s.executing.Some? {
          assert Executing(s, s.executing.value);
          assert ResolverOk(s, s.executing.value, owed[s.executing.value]);
        }
      case Trigger(r) =>
        assert Fired(s, r) && ResolverOk(s, r, owed[r]);
      case BeginHandler(r) =>
        assert r in s.triggered;
      case _ =>
    }
  }

  /** A request is never lost: as long as one is open outside resolve() and its resolver's handler is
      not running, the worker or a run loop has a step to take. */
  lemma OpenRequestHasAStep(s: State, owed: map<Id, Option<Call>>, r: Id)
    requires Inv(s, owed) && r in s.resolvers
    requires s.resolvers[r].resolving && s.resolvers[r].pc.Calm? && s.resolvers[r].handling.None?
    ensures Enabled(s, Take) || Enabled(s, Finish) || Enabled(s, Trigger(r)) || Enabled(s, BeginHandler(r))
  {
    assert ResolverOk(s, r, owed[r]);
    if Queued(s, r) && s.job.None? {
      var front := s.workQueue[0];
      assert Queued(s, front) && ResolverOk(s, front, owed[front]);
    } else if Executing(s, r) || s.job.Some? {
      assert s.executing.Some? ==> Executing(s, s.executing.value);
    }
  }

  /** Neither the worker nor a run loop can take a step. */
  ghost predicate Stopped(s: State) {
    forall step :: Works(step) ==> !Enabled(s, step)
  }

  lemma OpenIsNotStopped(s: State, owed: map<Id, Option<Call>>, r: Id)
    requires Inv(s, owed) && r in s.resolvers
    requires s.resolvers[r].resolving && s.resolvers[r].pc.Calm? && s.resolvers[r].handling.None?
    ensures !Stopped(s)
  {
    OpenRequestHasAStep(s, owed, r);
    assert Works(Take) && Works(Finish) && Works(Trigger(r)) && Works(BeginHandler(r));
  }

  /** Worker and run loops cannot go on forever without the owners. */
  lemma {:induction false} WorkIsBounded(ids: set<Id>, states: seq<State>, steps: seq<Step>, i: nat, j: nat)
    requires Run(ids, states, steps) && i <= j <= |steps| && forall k :: i <= k < j ==> Works(steps[k])
    ensures j - i + Work(states[j]) <= Work(states[i])
  {
    if i < j {
      WorkIsBounded(ids, states, steps, i, j - 1);
      RunKeepsInv(ids, states, steps, j - 1);
      assert Enabled(states[j - 1], steps[j - 1]) && Works(steps[j - 1]);
      WorkShrinks(states[j - 1], Debts(ids, states, steps, j - 1), steps[j - 1]);
    }
  }

  /** And when they stop, all handlers having ended, every request made outside resolve() has been answered or withdrawn:
      each call of resolve() was followed by its handler call, by a cancel() or by another call of resolve(). */
  lemma NothingIsLeftOpen(ids: set<Id>, states: seq<State>, steps: seq<Step>, r: Id, k: nat)
    requires Run(ids, states, steps) && Stopped(states[|steps|])
    requires forall x :: x in states[|steps|].resolvers ==> states[|steps|].resolvers[x].handling.None?
    requires r in states[|steps|].resolvers && states[|steps|].resolvers[r].pc.Calm?
    requires k < |steps| && steps[k] == ResolveCancel(r)
    ensures !states[|steps|].resolvers[r].resolving
    ensures exists m :: k < m < |steps| && Touches(steps[m], r)
  {
    var s, owed := states[|steps|], Debts(ids, states, steps, |steps|);
    RunKeepsInv(ids, states, steps, |steps|);
    assert ResolverOk(s, r, owed[r]);
    if s.resolvers[r].resolving {
      OpenIsNotStopped(s, owed, r);
    }
    if forall m :: k < m < |steps| ==> !Touches(steps[m], r) {
      UntouchedIsOwed(ids, states, steps, r, k, |steps|);
    }
  }

  /** What is asked for is owed until the owner touches it or the handler is called. */
  lemma {:induction false} UntouchedIsOwed(ids: set<Id>, states: seq<State>, steps: seq<Step>, r: Id, k: nat, i: nat)
    requires Run(ids, states, steps) && k < i <= |steps| && steps[k] == ResolveCancel(r)
    requires forall m :: k < m < i ==> !Touches(steps[m], r)
    ensures var d := Debts(ids, states, steps, i); r in d && d[r] == Some(states[k].calls)
  {
    if i > k + 1 {
      UntouchedIsOwed(ids, states, steps, r, k, i - 1);
      assert !Touches(steps[i - 1], r);
    }
  }
}
